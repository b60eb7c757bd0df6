/** The tipc session server as a state machine: any number of port managers, each with its own
    thread, which accept sessions, balance them over the managers, hand them over as two-word
    messages, serve them and close them. One step is one access to state the threads share (the
    server mutex, a session counter, one word of a message queue, a slab, the kernel); every
    thread may go next. There is no deferral, and sessions come only from accepts on the ports. */
module TipcModel {
  import opened TipcSelection
  import opened TipcTables

  // ----- Configuration -----

  /** `max[p]` sessions of port `p` may be open at a time; manager `m` has entries for `caps[m]`
      sessions; `quota` is what every manager but the last one has room for. */
  datatype Config = Config(max: seq<int>, caps: seq<int>, quota: int)

  function ConfigOf(max: seq<int>): Config
    requires max != []
  {
    Config(max, seq(|max|, i => Capacity(Sum(max), |max|, i)), Sum(max) / |max|)
  }

  predicate ConfigOk(g: Config) {
    && |g.max| == |g.caps| && IsCapacities(g.caps, g.quota) && Sum(g.caps) == Sum(g.max)
    && forall p | 0 <= p < |g.max| :: g.max[p] >= 0
  }

  lemma ConfigOfOk(max: seq<int>)
    requires max != [] && forall p | 0 <= p < |max| :: max[p] >= 0
    ensures ConfigOk(ConfigOf(max))
  {
    SumConstant(seq(|max|, _ => 0), 0);
    SumMonotone(seq(|max|, _ => 0), max);
    CapacitiesAddUp(Sum(max), |max|, ConfigOf(max).caps);
  }

  // ----- State -----

  /** An AddSession message: the session handle and the index of the port it came from. */
  datatype Msg = Msg(handle: int, port: int)

  datatype Object = NoObject | Object(port: int, slot: int)

  datatype Pc =
    | Wait                                            // LoopProcess, ReplyAndReceive
    // TriggerAddSession
    | Accepted(handle: int)
    | Select(handle: int, start: seq<int>, seen: seq<int>)
    | Send1(handle: int, best: int)
    | Send2(handle: int, best: int)
    | Sent
    // ProcessMessages
    | GotType(word: int)
    | GotBoth(word: int, data: int)
    | Allocated(handle: int, port: int, slot: int)
    // A session request, and the three ways to close a session
    | Received(handle: int)
    | Close(handle: int)
    | CloseKernel(handle: int)
    | Drop

  /** A manager's entries (index 0 is its port) and its message queue seen as messages:
      `inflight` are counted but not yet entered, `received` says how many were entered so far. */
  datatype Box = Box(handles: seq<int>, objects: seq<Object>, inflight: seq<Msg>, received: int)

  /** `num` is `m_num_sessions`, `queue` the words in the message queue. */
  datatype Manager = Manager(num: int, queue: seq<int>, pc: Pc, box: Box)

  /** Where a session that is open in the kernel is: carried by the thread that accepted it, in a
      message, in an entry, or taken out of its entry but not yet closed. */
  datatype Place =
    | InHand(thread: int)
    | Queued(manager: int, seqno: int)
    | Live(manager: int, entry: int)
    | Closing(thread: int)

  datatype Session = Session(port: int, place: Place)

  /** `slabs[p][j]` is 0 when the slot is unused, and otherwise the session its object was built for
      (the code keeps a flag); `counts[p]` and `sessions` are the kernel's: the open sessions of
      port `p`, and all open session handles. `mutex` is the thread that holds the server mutex, or -1. */
  datatype State = State(managers: seq<Manager>, slabs: seq<seq<int>>, counts: seq<int>,
                         sessions: map<int, Session>, mutex: int)

  function Initial(g: Config): State
    requires ConfigOk(g)
  {
    var n := |g.max|;
    State(seq(n, m requires 0 <= m < n => Manager(0, [], Wait, FreshBox(m, g.caps[m]))),
          seq(n, p requires 0 <= p < n => seq(g.max[p], _ => 0)), seq(n, _ => 0), map[], -1)
  }

  /** Only the port, handle `m + 1`, is registered. */
  function FreshBox(m: int, cap: int): Box
    requires cap >= 0
  {
    Box([m + 1] + seq(cap, _ => INVALID_HANDLE), seq(1 + cap, _ => NoObject), [], 0)
  }

  function Nums(s: State): seq<int> {
    seq(|s.managers|, m requires 0 <= m < |s.managers| => s.managers[m].num)
  }

  // ----- Message words -----

  const WORD_SHIFT := 0x1_0000_0000

  /** Type 0 in the low byte, the handle in the upper half. */
  function TypeWord(handle: int): int { handle * WORD_SHIFT }

  /** The upper half, counted out instead of divided: see `HalvesAre`. */
  function HandleOf(word: int): int { if word < WORD_SHIFT then 0 else 1 + HandleOf(word - WORD_SHIFT) }

  /** The low byte. */
  function TypeOf(word: int): int { (word - HandleOf(word) * WORD_SHIFT) % 0x100 }

  lemma {:induction false} HalvesAre(word: int)
    requires word >= 0
    ensures HandleOf(word) == word / WORD_SHIFT && TypeOf(word) == word % 0x100
  {
    if word >= WORD_SHIFT { HalvesAre(word - WORD_SHIFT); }
  }

  lemma {:induction false} DecodeType(handle: int)
    requires 0 <= handle < WORD_SHIFT
    ensures TypeOf(TypeWord(handle)) == 0 && HandleOf(TypeWord(handle)) == handle
    ensures 0 <= TypeWord(handle) < WORD_SHIFT * WORD_SHIFT
  {
    if handle > 0 { DecodeType(handle - 1); }
  }

  // ----- Steps -----

  /** What the environment decides: `Accept` is a connection the kernel hands out, `Signal` a session
      whose receive succeeds (`open`) or reports that the session is gone, `Message` that the queue is
      signaled, `Outcome` what becomes of a request. */
  datatype Choice = Accept(handle: int) | Signal(entry: int, open: bool) | Message | Outcome(answer: Answer) | Go

  /** A request is handled, or ends in a close (asked for by the client, or because it failed), or the
      service itself returns the result that says the session is closed already. */
  datatype Answer = Handled | Ends | ReportsClosed

  /** Services are expected not to return that result. */
  predicate Honest(c: Choice) { !(c.Outcome? && c.answer.ReportsClosed?) }

  predicate Shape(g: Config, s: State) {
    && |s.managers| == |s.slabs| == |s.counts| == |g.max| == |g.caps|
    && (forall m | 0 <= m < |s.managers| :: BoxShape(g, m, s.managers[m].box))
    && (forall p | 0 <= p < |s.slabs| :: |s.slabs[p]| == g.max[p])
  }

  predicate BoxShape(g: Config, m: int, b: Box)
    requires 0 <= m < |g.caps|
  {
    |b.handles| == |b.objects| == 1 + g.caps[m] >= 1 && b.handles[0] == m + 1 && b.objects[0] == NoObject
  }

  /** The code's own fatal checks at thread `t`'s next step. */
  predicate Aborts(g: Config, s: State, t: int)
    requires Shape(g, s) && 0 <= t < |s.managers|
  {
    var b := s.managers[t].box;
    match s.managers[t].pc
    case GotBoth(w, d) => TypeOf(w) != 0 || !(0 <= d < |s.slabs|) || 0 !in s.slabs[d]
    case Allocated(h, p, j) => INVALID_HANDLE !in b.handles
    case Close(h) =>
      (h !in b.handles) || var o := b.objects[FindFirst(b.handles, h)];
                           !o.Object? || !(0 <= o.port < |s.slabs| && 0 <= o.slot < |s.slabs[o.port]|)
                               || s.slabs[o.port][o.slot] == 0
    case CloseKernel(h) => h !in s.sessions || !(0 <= s.sessions[h].port < |s.counts|)
    case _ => false
  }

  predicate Enabled(g: Config, s: State, t: int, c: Choice)
    requires Shape(g, s)
  {
    0 <= t < |s.managers| && !Aborts(g, s, t) &&
    var me := s.managers[t];
    match me.pc
    case Wait =>
      (match c
       case Accept(h) => |g.max| < h < WORD_SHIFT && h !in s.sessions && s.counts[t] < g.max[t]
       case Signal(i, _) => 1 <= i < |me.box.handles| && me.box.handles[i] != INVALID_HANDLE
       case Message => me.queue != []
       case _ => false)
    case Accepted(_) => c.Go? && s.mutex == -1
    case Select(_, _, seen) => c.Go? && |seen| <= |s.managers|
    case Send1(_, b) => c.Go? && 0 <= b < |s.managers| && |s.managers[b].queue| < Sum(g.max)
    case Send2(_, b) => c.Go? && 0 <= b < |s.managers| && |s.managers[b].queue| < Sum(g.max)
    case GotType(_) => c.Go? && me.queue != []
    case Received(_) => c.Outcome?
    case _ => c.Go?
  }

  function Put(s: State, m: int, x: Manager): State
    requires 0 <= m < |s.managers|
  {
    s.(managers := s.managers[m := x])
  }

  function At(s: State, t: int, pc: Pc): State
    requires 0 <= t < |s.managers|
  {
    Put(s, t, s.managers[t].(pc := pc))
  }

  // The effects on a manager and its box

  function Entered(b: Box, i: int, h: int, o: Object): Box
    requires 0 <= i < |b.handles| == |b.objects|
  {
    b.(handles := b.handles[i := h], objects := b.objects[i := o])
  }

  function Popped(b: Box): Box
    requires b.inflight != []
  {
    b.(inflight := b.inflight[1..], received := b.received + 1)
  }

  function Counted(x: Manager, msg: Msg): Manager {
    x.(num := x.num + 1, box := x.box.(inflight := x.box.inflight + [msg]))
  }

  function Pushed(x: Manager, word: int): Manager { x.(queue := x.queue + [word]) }

  function Taken(x: Manager, pc: Pc): Manager
    requires x.queue != []
  {
    x.(queue := x.queue[1..], pc := pc)
  }

  // The steps that change where a session is

  function Accepts(s: State, t: int, h: int): State
    requires 0 <= t < |s.managers| == |s.counts|
  {
    At(s, t, Accepted(h)).(counts := s.counts[t := s.counts[t] + 1], sessions := s.sessions[h := Session(t, InHand(t))])
  }

  function Counts(s: State, t: int, h: int, b: int): State
    requires 0 <= t < |s.managers| && 0 <= b < |s.managers|
  {
    var x := s.managers[b];
    At(Put(s, b, Counted(x, Msg(h, t))), t, Send1(h, b))
    .(sessions := s.sessions[h := Session(t, Queued(b, x.box.received + |x.box.inflight|))])
  }

  function Allocates(s: State, t: int, h: int, p: int): State
    requires 0 <= t < |s.managers| && 0 <= p < |s.slabs| && 0 in s.slabs[p]
  {
    var j := FindFirst(s.slabs[p], 0);
    At(s, t, Allocated(h, p, j)).(slabs := s.slabs[p := s.slabs[p][j := h]])
  }

  function Enters(s: State, t: int, h: int, p: int, j: int): State
    requires 0 <= t < |s.managers|
    requires var b := s.managers[t].box; |b.handles| == |b.objects| && INVALID_HANDLE in b.handles && b.inflight != []
  {
    var x := s.managers[t];
    var i := FindFirst(x.box.handles, INVALID_HANDLE);
    Put(s, t, x.(pc := Wait, box := Popped(Entered(x.box, i, h, Object(p, j)))))
    .(sessions := s.sessions[h := Session(p, Live(t, i))])
  }

  function Closes(s: State, t: int, h: int): State
    requires 0 <= t < |s.managers|
    requires var b := s.managers[t].box;
             && |b.handles| == |b.objects| && h in b.handles
             && var o := b.objects[FindFirst(b.handles, h)];
                o.Object? && 0 <= o.port < |s.slabs| && 0 <= o.slot < |s.slabs[o.port]|
  {
    var x := s.managers[t];
    var i := FindFirst(x.box.handles, h);
    var o := x.box.objects[i];
    Put(s, t, x.(pc := CloseKernel(h), box := Entered(x.box, i, INVALID_HANDLE, NoObject)))
    .(slabs := s.slabs[o.port := s.slabs[o.port][o.slot := 0]],
        sessions := s.sessions[h := Session(o.port, Closing(t))])
  }

  function ClosesInKernel(s: State, t: int, h: int): State
    requires 0 <= t < |s.managers| && h in s.sessions && 0 <= s.sessions[h].port < |s.counts|
  {
    var p := s.sessions[h].port;
    At(s, t, Drop).(counts := s.counts[p := s.counts[p] - 1], sessions := s.sessions - {h})
  }

  predicate CanGo(g: Config, s: State, t: int, c: Choice) {
    Shape(g, s) && Enabled(g, s, t, c) && (s.managers[t].pc.Allocated? ==> s.managers[t].box.inflight != [])
  }

  function Next(g: Config, s: State, t: int, c: Choice): State
    requires CanGo(g, s, t, c)
  {
    var me := s.managers[t];
    match me.pc
    case Wait =>
      (match c
       case Accept(h) => Accepts(s, t, h)
       case Signal(i, open) => At(s, t, if open then Received(me.box.handles[i]) else Close(me.box.handles[i]))
       case _ => Put(s, t, Taken(me, GotType(me.queue[0]))))
    case Accepted(h) => At(s, t, Select(h, Nums(s), [])).(mutex := t)
    case Select(h, start, seen) =>
      if |seen| < |s.managers| then At(s, t, Select(h, start, seen + [s.managers[|seen|].num]))
      else Counts(s, t, h, Fold(seen, g.quota).index)
    case Send1(h, b) => At(Put(s, b, Pushed(s.managers[b], TypeWord(h))), t, Send2(h, b))
    case Send2(h, b) => At(Put(s, b, Pushed(s.managers[b], t)), t, Sent)
    case Sent => At(s, t, Wait).(mutex := -1)
    case GotType(w) => Put(s, t, Taken(me, GotBoth(w, me.queue[0])))
    case GotBoth(w, d) => Allocates(s, t, HandleOf(w), d)
    case Allocated(h, p, j) => Enters(s, t, h, p, j)
    case Received(h) => At(s, t, match c.answer case Handled => Wait case Ends => Close(h) case ReportsClosed => Drop)
    case Close(h) => Closes(s, t, h)
    case CloseKernel(h) => ClosesInKernel(s, t, h)
    case Drop => Put(s, t, me.(num := me.num - 1, pc := Wait))
  }

  // ----- Counting -----

  /** The sessions among the entries: index 0 is the port. */
  function LiveCount(handles: seq<int>): int {
    if |handles| <= 1 then 0
    else LiveCount(handles[..|handles| - 1]) + (if handles[|handles| - 1] != INVALID_HANDLE then 1 else 0)
  }

  lemma {:induction false} LiveUpdate(handles: seq<int>, i: int, h: int)
    requires 1 <= i < |handles|
    ensures LiveCount(handles[i := h])
         == LiveCount(handles) - (if handles[i] != INVALID_HANDLE then 1 else 0)
             + (if h != INVALID_HANDLE then 1 else 0)
  {
    var n := |handles| - 1;
    if i < n {
      assert handles[i := h][..n] == handles[..n][i := h];
      LiveUpdate(handles[..n], i, h);
    } else {
      assert handles[i := h][..n] == handles[..n];
    }
  }

  /** There is an empty entry exactly when fewer sessions than entries are live. */
  lemma {:induction false} LiveRoom(handles: seq<int>)
    requires handles != [] && handles[0] != INVALID_HANDLE
    ensures 0 <= LiveCount(handles) <= |handles| - 1
    ensures INVALID_HANDLE in handles <==> LiveCount(handles) < |handles| - 1
  {
    var n := |handles| - 1;
    if n > 0 {
      LiveRoom(handles[..n]);
      assert handles == handles[..n] + [handles[n]];
    }
  }

  /** The words of a sequence of messages. */
  function Words(ms: seq<Msg>): (w: seq<int>)
    ensures |w| == 2 * |ms|
  {
    if ms == [] then []
    else
      var m := ms[|ms| - 1];
      Words(ms[..|ms| - 1]) + [TypeWord(m.handle), m.port]
  }

  lemma {:induction false} FirstWords(ms: seq<Msg>)
    requires ms != []
    ensures Words(ms)[0] == TypeWord(ms[0].handle) && Words(ms)[1] == ms[0].port
    ensures Words(ms)[2..] == Words(ms[1..])
  {
    var n := |ms| - 1;
    if n > 0 {
      FirstWords(ms[..n]);
      assert ms[..n][1..] == ms[1..][..n - 1];
    }
  }

  /** The sessions of port `p` that are open in the kernel. */
  function OpenOf(sessions: map<int, Session>, p: int): set<int> {
    set h | h in sessions && sessions[h].port == p
  }
}
