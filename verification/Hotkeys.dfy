/** The hotkey press machine: what a sequence of polls of the controllers makes the service do. */
module Hotkeys {

  /** The cache of one combination: the tick its press began, 0 when it is not pressed. */
  datatype Combo = Combo(tick: int, longPressed: bool)

  datatype Action = Nothing | Short | Long

  const RELEASED := Combo(0, false)

  const TICK_LIMIT := 0x1_0000_0000_0000_0000

  // ----- One combination, one poll -----

  /** Ticks are subtracted in 64 bits. */
  function Elapsed(tick: int, begun: int): int { (tick - begun) % TICK_LIMIT }

  lemma ElapsedIs(tick: int, begun: int)
    requires 0 <= tick < TICK_LIMIT && 0 <= begun < TICK_LIMIT
    ensures Elapsed(tick, begun) == tick - begun <==> begun <= tick
  {
  }

  function Emitted(c: Combo, pressed: bool, tick: int, duration: int): Action {
    if pressed then
      if c.tick != 0 && !c.longPressed && Elapsed(tick, c.tick) > duration then Long else Nothing
    else if c.tick != 0 && !c.longPressed then Short
    else Nothing
  }

  function Polled(c: Combo, pressed: bool, tick: int, duration: int): Combo {
    if pressed then
      if c.tick == 0 then c.(tick := tick)
      else c.(longPressed := c.longPressed || Elapsed(tick, c.tick) > duration)
    else if c.tick != 0 then RELEASED
    else c
  }

  // ----- Traces -----

  datatype Sample = Sample(tick: int, pressed: bool)

  /** Ticks are never 0 and never run backwards. */
  predicate Clocked(trace: seq<Sample>) {
    && (forall i | 0 <= i < |trace| :: 0 < trace[i].tick < TICK_LIMIT)
    && forall i, j | 0 <= i < j < |trace| :: trace[i].tick <= trace[j].tick
  }

  /** The cache after the first `n` polls. */
  function After(trace: seq<Sample>, duration: int, n: nat): Combo
    requires n <= |trace|
  {
    if n == 0 then RELEASED
    else Polled(After(trace, duration, n - 1), trace[n - 1].pressed, trace[n - 1].tick, duration)
  }

  /** What poll `i` of a trace makes the service do. */
  function ActionAt(trace: seq<Sample>, duration: int, i: nat): Action
    requires i < |trace|
  {
    Emitted(After(trace, duration, i), trace[i].pressed, trace[i].tick, duration)
  }

  // ----- What it should do -----

  /** Polls [s, e) are all pressed, and the press began at `s`. */
  predicate PressedSince(trace: seq<Sample>, s: int, e: int) {
    && 0 <= s < e <= |trace| && (s > 0 ==> !trace[s - 1].pressed)
    && forall k | s <= k < e :: trace[k].pressed
  }

  /** Poll `k` comes more than `duration` after the press that began at `s`. */
  predicate Late(trace: seq<Sample>, duration: int, s: int, k: int)
    requires 0 <= s < |trace| && 0 <= k < |trace|
  {
    trace[k].tick - trace[s].tick > duration
  }

  lemma LateIsElapsed(trace: seq<Sample>, duration: int, s: int, k: int)
    requires Clocked(trace) && 0 <= s <= k < |trace|
    ensures Late(trace, duration, s, k) <==> Elapsed(trace[k].tick, trace[s].tick) > duration
  {
    assert trace[s].tick <= trace[k].tick;
    ElapsedIs(trace[k].tick, trace[s].tick);
  }

  /** The cache during a press: when it began, and whether some poll so far came late. */
  lemma {:induction false} DuringPress(trace: seq<Sample>, duration: int, s: int, e: int)
    requires Clocked(trace) && duration >= 0 && PressedSince(trace, s, e)
    ensures After(trace, duration, e).tick == trace[s].tick
    ensures After(trace, duration, e).longPressed <==> exists k :: s <= k < e && Late(trace, duration, s, k)
    decreases e
  {
    if e == s + 1 {
      BeforePress(trace, duration, s);
    } else {
      DuringPress(trace, duration, s, e - 1);
      LateIsElapsed(trace, duration, s, e - 1);
    }
  }

  /** Before the first poll and after a released one, the cache is clear. */
  lemma {:induction false} BeforePress(trace: seq<Sample>, duration: int, s: int)
    requires Clocked(trace) && 0 <= s <= |trace| && (s > 0 ==> !trace[s - 1].pressed)
    ensures After(trace, duration, s) == RELEASED
    decreases s
  {
    if s > 0 {
      if s > 1 && trace[s - 2].pressed {
        TickZeroIsReleased(trace, duration, s - 1);
      } else {
        BeforePress(trace, duration, s - 1);
      }
    }
  }

  /** A cache with no tick has no pending long press either. */
  lemma {:induction false} TickZeroIsReleased(trace: seq<Sample>, duration: int, n: nat)
    requires (forall i | 0 <= i < |trace| :: trace[i].tick > 0) && n <= |trace|
    ensures After(trace, duration, n).tick == 0 ==> After(trace, duration, n) == RELEASED
  {
    if n > 0 { TickZeroIsReleased(trace, duration, n - 1); }
  }

  /** A poll during a press emits a long action exactly when it is the first late one. */
  lemma PressedEmits(trace: seq<Sample>, duration: int, s: int, i: int)
    requires Clocked(trace) && duration >= 0 && PressedSince(trace, s, i + 1)
    ensures ActionAt(trace, duration, i)
         == if Late(trace, duration, s, i) && forall k | s <= k < i :: !Late(trace, duration, s, k)
            then Long else Nothing
  {
    if i == s {
      BeforePress(trace, duration, s);
    } else {
      DuringPress(trace, duration, s, i);
      LateIsElapsed(trace, duration, s, i);
    }
  }

  /** The poll that ends a press emits a short action exactly when no poll of it came late. */
  lemma ReleaseEmits(trace: seq<Sample>, duration: int, s: int, e: int)
    requires Clocked(trace) && duration >= 0 && PressedSince(trace, s, e) && e < |trace| && !trace[e].pressed
    ensures ActionAt(trace, duration, e)
         == if exists k :: s <= k < e && Late(trace, duration, s, k) then Nothing else Short
  {
    DuringPress(trace, duration, s, e);
  }

  /** A released poll that does not end a press emits nothing. */
  lemma IdleEmitsNothing(trace: seq<Sample>, duration: int, i: int)
    requires Clocked(trace) && 0 <= i < |trace| && !trace[i].pressed && (i > 0 ==> !trace[i - 1].pressed)
    ensures ActionAt(trace, duration, i) == Nothing
  {
    BeforePress(trace, duration, i);
  }

  /** The first late poll of a press, if there is one. */
  lemma {:induction false} FirstLate(trace: seq<Sample>, duration: int, s: int, e: int) returns (f: int)
    requires 0 <= s <= e <= |trace| && s < |trace|
    ensures s <= f <= e && (f < e ==> Late(trace, duration, s, f))
    ensures forall k | s <= k < f :: !Late(trace, duration, s, k)
    decreases e
  {
    if e == s {
      f := e;
    } else {
      f := FirstLate(trace, duration, s, e - 1);
      if f == e - 1 && !Late(trace, duration, s, f) { f := e; }
    }
  }

  /** Each press that was released makes the service do exactly one thing, at poll `f`: the long
      action at the first late poll, or else the short action at the poll that sees the release. */
  lemma ClosedPressActsOnce(trace: seq<Sample>, duration: int, s: int, e: int) returns (f: int)
    requires Clocked(trace) && duration >= 0 && PressedSince(trace, s, e) && e < |trace| && !trace[e].pressed
    ensures s <= f <= e
    ensures forall i | s <= i <= e && i != f :: ActionAt(trace, duration, i) == Nothing
    ensures f < e <==> exists k :: s <= k < e && Late(trace, duration, s, k)
    ensures ActionAt(trace, duration, f) == if f < e then Long else Short
    ensures f < e ==> Late(trace, duration, s, f) && forall k | s <= k < f :: !Late(trace, duration, s, k)
  {
    f := FirstLate(trace, duration, s, e);
    ReleaseEmits(trace, duration, s, e);
    forall i | s <= i < e ensures ActionAt(trace, duration, i) == if i == f then Long else Nothing {
      PressedEmits(trace, duration, s, i);
    }
  }

  /** A press that is still held at the end of the trace has acted at most once, and only long: at
      poll `f`, or not at all when `f` is the end. */
  lemma OpenPressActsAtMostOnce(trace: seq<Sample>, duration: int, s: int) returns (f: int)
    requires Clocked(trace) && duration >= 0 && PressedSince(trace, s, |trace|)
    ensures s <= f <= |trace|
    ensures forall i | s <= i < |trace| && i != f :: ActionAt(trace, duration, i) == Nothing
    ensures f < |trace| <==> exists k :: s <= k < |trace| && Late(trace, duration, s, k)
    ensures f < |trace| ==> ActionAt(trace, duration, f) == Long
  {
    f := FirstLate(trace, duration, s, |trace|);
    forall i | s <= i < |trace| ensures ActionAt(trace, duration, i) == if i == f then Long else Nothing {
      PressedEmits(trace, duration, s, i);
    }
  }

  // ----- The service -----

  const COMBOS := 3
  const PADS := 4

  datatype Button = ZL | ZR | L | R | StickL | StickR

  /** Whether the controller is a Lucia, and which of its buttons are held. */
  datatype Input = Input(lucia: bool, buttons: set<Button>)

  /** No style, no buttons. */
  const DISCONNECTED := Input(false, {})

  predicate ComboPressed(combo: int, input: Input) {
    if combo == 0 then input.lucia && ZL in input.buttons && L in input.buttons
    else if combo == 1 then input.lucia && ZR in input.buttons && R in input.buttons
    else if combo == 2 then
      if input.lucia then ZL in input.buttons && ZR in input.buttons
      else StickL in input.buttons && StickR in input.buttons
    else false
  }

  /** The buttons of a combination on a controller; a combination it does not have has none. */
  function ComboButtons(combo: int, lucia: bool): set<Button> {
    match (combo, lucia)
    case (0, true) => {ZL, L}
    case (1, true) => {ZR, R}
    case (2, true) => {ZL, ZR}
    case (2, false) => {StickL, StickR}
    case _ => {}
  }

  /** A combination is pressed when the controller has it and all its buttons are held, whatever other
      buttons are. */
  lemma ComboPressedIff(combo: int, input: Input)
    ensures ComboPressed(combo, input)
       <==> ComboButtons(combo, input.lucia) != {} && ComboButtons(combo, input.lucia) <= input.buttons
  {
  }

  /** What the kernel says about a controller: how many states it hands out, whether the last one is
      of a connected controller, and that state. */
  datatype Pad = Pad(states: nat, connected: bool, input: Input)

  /** What the service sees of it. */
  function Seen(pad: Pad): Input { if pad.states > 0 && pad.connected then pad.input else DISCONNECTED }

  predicate Gone(pad: Pad) { pad.states == 0 || !pad.connected }

  /** A controller that is gone presses nothing; one that is there presses what its buttons say. */
  lemma GonePressesNothing(combo: int, pad: Pad)
    ensures ComboPressed(combo, Seen(pad))
       <==> !Gone(pad) && ComboButtons(combo, pad.input.lucia) != {}
            && ComboButtons(combo, pad.input.lucia) <= pad.input.buttons
  {
    ComboPressedIff(combo, Seen(pad));
  }

  /** One poll of one controller, for the combinations below `n`: each goes on by itself. */
  function PolledAll(combos: seq<Combo>, durations: seq<int>, input: Input, tick: int, n: nat): (r: seq<Combo>)
    requires n <= |combos| == |durations|
    ensures |r| == |combos|
    ensures forall k | 0 <= k < |r| ::
              r[k] == if k < n then Polled(combos[k], ComboPressed(k, input), tick, durations[k]) else combos[k]
  {
    if n == 0 then combos
    else
      PolledAll(combos, durations, input, tick, n - 1)
      [n - 1 := Polled(combos[n - 1], ComboPressed(n - 1, input), tick, durations[n - 1])]
  }

  datatype Fired = Fired(combo: int, long: bool)

  function Does(combo: int, action: Action): seq<Fired> {
    match action
    case Nothing => []
    case Short => [Fired(combo, false)]
    case Long => [Fired(combo, true)]
  }

  /** Nothing is done exactly for `Nothing`, and else one thing, long or short as the action says. */
  lemma DoesOne(combo: int, action: Action, fired: Fired)
    ensures Does(combo, action) == [fired]
       <==> fired.combo == combo && (if fired.long then action.Long? else action.Short?)
    ensures Does(combo, action) == [] <==> action.Nothing?
  {
    assert Does(combo, Short) == [Fired(combo, false)] && Does(combo, Long) == [Fired(combo, true)];
    assert [fired][0] == fired;
  }

  /** The actions of one poll of one controller, for the combinations below `n`, in order. */
  function FiredBy(combos: seq<Combo>, durations: seq<int>, input: Input, tick: int, n: nat): seq<Fired>
    requires n <= |combos| == |durations|
  {
    if n == 0 then []
    else
      FiredBy(combos, durations, input, tick, n - 1)
      + Does(n - 1, Emitted(combos[n - 1], ComboPressed(n - 1, input), tick, durations[n - 1]))
  }

  /** The caches of all controllers, each with its combinations. */
  predicate IsCaches(caches: seq<seq<Combo>>) {
    |caches| == PADS && forall i | 0 <= i < |caches| :: |caches[i]| == COMBOS
  }

  /** One round: what the kernel says about all controllers, and the tick at which each was polled. */
  datatype Round = Round(pads: seq<Pad>, ticks: seq<int>)

  predicate IsRound(round: Round) { |round.pads| == PADS == |round.ticks| }

  /** The caches when the controllers below `n` have been polled. */
  function PolledFirst(caches: seq<seq<Combo>>, durations: seq<int>, round: Round, n: nat): (r: seq<seq<Combo>>)
    requires IsCaches(caches) && IsRound(round) && |durations| == COMBOS && n <= PADS
    ensures IsCaches(r)
    ensures forall i | 0 <= i < PADS ::
              r[i] == if i < n then PolledAll(caches[i], durations, Seen(round.pads[i]), round.ticks[i], |durations|)
              else caches[i]
  {
    if n == 0 then caches
    else
      PolledFirst(caches, durations, round, n - 1)
      [n - 1 := PolledAll(caches[n - 1], durations, Seen(round.pads[n - 1]), round.ticks[n - 1], |durations|)]
  }

  /** The actions of one round over the controllers below `n`. */
  function FiredByPads(caches: seq<seq<Combo>>, durations: seq<int>, round: Round, n: nat): seq<Fired>
    requires IsCaches(caches) && IsRound(round) && |durations| == COMBOS && n <= PADS
  {
    if n == 0 then []
    else
      FiredByPads(caches, durations, round, n - 1)
      + FiredBy(caches[n - 1], durations, Seen(round.pads[n - 1]), round.ticks[n - 1], |durations|)
  }

  // ----- Any number of rounds -----

  function Clear(): (r: seq<seq<Combo>>)
    ensures IsCaches(r)
  {
    var combos := [RELEASED, RELEASED, RELEASED];
    [combos, combos, combos, combos]
  }

  predicate AreRounds(rounds: seq<Round>) { forall i | 0 <= i < |rounds| :: IsRound(rounds[i]) }

  /** The caches after the first `n` rounds. */
  function CachesAfter(rounds: seq<Round>, durations: seq<int>, n: nat): (r: seq<seq<Combo>>)
    requires AreRounds(rounds) && |durations| == COMBOS && n <= |rounds|
    ensures IsCaches(r)
  {
    if n == 0 then Clear()
    else PolledFirst(CachesAfter(rounds, durations, n - 1), durations, rounds[n - 1], |rounds[n - 1].pads|)
  }

  /** What one combination of one controller goes through in a round. */
  function SampleOf(round: Round, pad: nat, combo: nat): Sample
    requires IsRound(round) && pad < PADS
  {
    Sample(round.ticks[pad], ComboPressed(combo, Seen(round.pads[pad])))
  }

  /** What one combination of one controller went through. */
  function TraceOf(rounds: seq<Round>, pad: nat, combo: nat): (trace: seq<Sample>)
    requires AreRounds(rounds) && pad < PADS
    ensures |trace| == |rounds|
  {
    seq(|rounds|, i requires 0 <= i < |rounds| => SampleOf(rounds[i], pad, combo))
  }

  /** When a controller goes away, the presses it was in the middle of end: as if released. */
  lemma GoneEndsPress(rounds: seq<Round>, pad: nat, combo: nat, duration: int, s: int, e: nat)
    requires AreRounds(rounds) && pad < PADS && e < |rounds| && Gone(rounds[e].pads[pad])
    requires duration >= 0 && Clocked(TraceOf(rounds, pad, combo)) && PressedSince(TraceOf(rounds, pad, combo), s, e)
    ensures ActionAt(TraceOf(rounds, pad, combo), duration, e)
         == if exists k :: s <= k < e && Late(TraceOf(rounds, pad, combo), duration, s, k) then Nothing else Short
  {
    GonePressesNothing(combo, rounds[e].pads[pad]);
    ReleaseEmits(TraceOf(rounds, pad, combo), duration, s, e);
  }

  /** The actions of the traces of one controller in round `i`, for the combinations below `n`. */
  function ActedBy(rounds: seq<Round>, durations: seq<int>, i: nat, pad: nat, n: nat): seq<Fired>
    requires AreRounds(rounds) && i < |rounds| && |durations| == COMBOS && pad < PADS && n <= COMBOS
  {
    if n == 0 then []
    else
      ActedBy(rounds, durations, i, pad, n - 1)
      + Does(n - 1, ActionAt(TraceOf(rounds, pad, n - 1), durations[n - 1], i))
  }

  function ActedByPads(rounds: seq<Round>, durations: seq<int>, i: nat, n: nat): seq<Fired>
    requires AreRounds(rounds) && i < |rounds| && |durations| == COMBOS && n <= PADS
  {
    if n == 0 then [] else ActedByPads(rounds, durations, i, n - 1) + ActedBy(rounds, durations, i, n - 1, |durations|)
  }

  /** A round in order: the combinations of each controller, and the controllers, from the first on. */
  lemma RoundInOrder(rounds: seq<Round>, durations: seq<int>, i: nat, pad: nat)
    requires AreRounds(rounds) && i < |rounds| && |durations| == COMBOS && pad < PADS
    ensures ActedBy(rounds, durations, i, pad, COMBOS)
         == Does(0, ActionAt(TraceOf(rounds, pad, 0), durations[0], i))
            + Does(1, ActionAt(TraceOf(rounds, pad, 1), durations[1], i))
            + Does(2, ActionAt(TraceOf(rounds, pad, 2), durations[2], i))
    ensures ActedByPads(rounds, durations, i, PADS)
         == ActedBy(rounds, durations, i, 0, COMBOS) + ActedBy(rounds, durations, i, 1, COMBOS)
            + ActedBy(rounds, durations, i, 2, COMBOS) + ActedBy(rounds, durations, i, 3, COMBOS)
  {
    assert ActedBy(rounds, durations, i, pad, 1) == Does(0, ActionAt(TraceOf(rounds, pad, 0), durations[0], i));
    assert ActedByPads(rounds, durations, i, 1) == ActedBy(rounds, durations, i, 0, COMBOS);
    assert ActedByPads(rounds, durations, i, 2)
        == ActedBy(rounds, durations, i, 0, COMBOS) + ActedBy(rounds, durations, i, 1, COMBOS);
  }

  /** Round by round, controller by controller, combination by combination: the actions of the traces. */
  function ExpectedLog(rounds: seq<Round>, durations: seq<int>, n: nat): seq<Fired>
    requires AreRounds(rounds) && |durations| == COMBOS && n <= |rounds|
  {
    if n == 0 then []
    else ExpectedLog(rounds, durations, n - 1) + ActedByPads(rounds, durations, n - 1, |rounds[n - 1].pads|)
  }

  /** One round moves each combination by one poll. */
  lemma RoundPolls(caches: seq<seq<Combo>>, durations: seq<int>, round: Round, pad: nat, combo: nat)
    requires IsCaches(caches) && IsRound(round) && |durations| == COMBOS && pad < PADS && combo < COMBOS
    ensures PolledFirst(caches, durations, round, |round.pads|)[pad][combo]
         == Polled(caches[pad][combo], ComboPressed(combo, Seen(round.pads[pad])), round.ticks[pad], durations[combo])
  {
  }

  lemma CacheGoesOn(rounds: seq<Round>, durations: seq<int>, n: nat, pad: nat, combo: nat)
    requires AreRounds(rounds) && |durations| == COMBOS && n < |rounds| && pad < PADS && combo < COMBOS
    ensures var sample := SampleOf(rounds[n], pad, combo);
            CachesAfter(rounds, durations, n + 1)[pad][combo] ==
            Polled(CachesAfter(rounds, durations, n)[pad][combo], sample.pressed, sample.tick, durations[combo])
  {
    RoundPolls(CachesAfter(rounds, durations, n), durations, rounds[n], pad, combo);
  }

  lemma CachesStartClear(rounds: seq<Round>, durations: seq<int>, pad: nat, combo: nat)
    requires AreRounds(rounds) && |durations| == COMBOS && pad < PADS && combo < COMBOS
    ensures CachesAfter(rounds, durations, 0)[pad][combo] == RELEASED
  {
  }

  lemma AfterStep(trace: seq<Sample>, duration: int, n: nat, c: Combo)
    requires n < |trace| && c == Polled(After(trace, duration, n), trace[n].pressed, trace[n].tick, duration)
    ensures c == After(trace, duration, n + 1)
  {
  }

  lemma {:induction false} CachesFollow(rounds: seq<Round>, durations: seq<int>, n: nat, pad: nat, combo: nat,
      trace: seq<Sample>)
    requires AreRounds(rounds) && |durations| == COMBOS && n <= |rounds| == |trace| && pad < PADS && combo < COMBOS
    requires forall i | 0 <= i < |rounds| :: trace[i] == SampleOf(rounds[i], pad, combo)
    ensures CachesAfter(rounds, durations, n)[pad][combo] == After(trace, durations[combo], n)
    decreases n
  {
    if n == 0 {
      CachesStartClear(rounds, durations, pad, combo);
    } else {
      CachesFollow(rounds, durations, n - 1, pad, combo, trace);
      CacheGoesOn(rounds, durations, n - 1, pad, combo);
      AfterStep(trace, durations[combo], n - 1, CachesAfter(rounds, durations, n)[pad][combo]);
    }
  }

  /** Each combination's cache is what its own trace leaves. */
  lemma {:induction false} CachesAreTraces(rounds: seq<Round>, durations: seq<int>, n: nat, pad: nat, combo: nat)
    requires AreRounds(rounds) && |durations| == COMBOS && n <= |rounds| && pad < PADS && combo < COMBOS
    ensures CachesAfter(rounds, durations, n)[pad][combo] == After(TraceOf(rounds, pad, combo), durations[combo], n)
  {
    CachesFollow(rounds, durations, n, pad, combo, TraceOf(rounds, pad, combo));
  }

  lemma EmittedIsActed(rounds: seq<Round>, durations: seq<int>, i: nat, pad: nat, combo: nat)
    requires AreRounds(rounds) && i < |rounds| && |durations| == COMBOS && pad < PADS && combo < COMBOS
    ensures Emitted(CachesAfter(rounds, durations, i)[pad][combo], ComboPressed(combo, Seen(rounds[i].pads[pad])),
                    rounds[i].ticks[pad], durations[combo])
         == ActionAt(TraceOf(rounds, pad, combo), durations[combo], i)
  {
    CachesAreTraces(rounds, durations, i, pad, combo);
  }

  lemma {:induction false} FiredIsActed(rounds: seq<Round>, durations: seq<int>, i: nat, pad: nat, n: nat)
    requires AreRounds(rounds) && i < |rounds| && |durations| == COMBOS && pad < PADS && n <= COMBOS
    ensures FiredBy(CachesAfter(rounds, durations, i)[pad], durations, Seen(rounds[i].pads[pad]),
                    rounds[i].ticks[pad], n)
         == ActedBy(rounds, durations, i, pad, n)
    decreases n
  {
    if n > 0 {
      FiredIsActed(rounds, durations, i, pad, n - 1);
      EmittedIsActed(rounds, durations, i, pad, n - 1);
    }
  }

  lemma {:induction false} PadsAreActed(rounds: seq<Round>, durations: seq<int>, i: nat, n: nat)
    requires AreRounds(rounds) && i < |rounds| && |durations| == COMBOS && n <= PADS
    ensures FiredByPads(CachesAfter(rounds, durations, i), durations, rounds[i], n)
            == ActedByPads(rounds, durations, i, n)
    decreases n
  {
    if n > 0 {
      PadsAreActed(rounds, durations, i, n - 1);
      FiredIsActed(rounds, durations, i, n - 1, |durations|);
    }
  }

  lemma Associative<T>(a: seq<T>, b: seq<T>, c: seq<T>)
    ensures (a + b) + c == a + (b + c)
  {
  }

  /** One round more, behind whatever was done before. */
  lemma RoundIsLogged(earlier: seq<Fired>, rounds: seq<Round>, durations: seq<int>, i: nat)
    requires AreRounds(rounds) && i < |rounds| && |durations| == COMBOS
    ensures earlier + ExpectedLog(rounds, durations, i)
            + FiredByPads(CachesAfter(rounds, durations, i), durations, rounds[i], |rounds[i].pads|)
         == earlier + ExpectedLog(rounds, durations, i + 1)
  {
    PadsAreActed(rounds, durations, i, |rounds[i].pads|);
    Associative(earlier, ExpectedLog(rounds, durations, i), ActedByPads(rounds, durations, i, |rounds[i].pads|));
  }

  class HotkeyService {
    /** `ComboLongPressDuration`, in ticks. */
    const durations: seq<int>

    var hotkeyCache: seq<seq<Combo>>

    /** The actions so far. */
    var actions: seq<Fired>

    ghost predicate Valid()
      reads this
    {
      |durations| == COMBOS && IsCaches(hotkeyCache)
    }

    constructor (durations: seq<int>)
      requires |durations| == COMBOS
      ensures Valid() && this.durations == durations && hotkeyCache == Clear() && actions == []
    {
      this.durations, hotkeyCache, actions := durations, Clear(), [];
    }

    /** Polls all combinations of one controller at one tick: each goes on by itself, and the actions
        come in the order of the combinations. */
    method ProcessHidState(pad: nat, input: Input, tick: int)
      requires Valid() && pad < PADS
      modifies this`hotkeyCache, this`actions
      ensures Valid()
      ensures hotkeyCache
           == old(hotkeyCache)[pad := PolledAll(old(hotkeyCache)[pad], durations, input, tick, |durations|)]
      ensures actions == old(actions) + FiredBy(old(hotkeyCache)[pad], durations, input, tick, |durations|)
    {
      var combos := hotkeyCache[pad];
      ghost var before := combos;
      var combo := 0;
      while combo < COMBOS
        invariant 0 <= combo <= COMBOS && |combos| == COMBOS && hotkeyCache == old(hotkeyCache)
        invariant combos == PolledAll(before, durations, input, tick, combo)
        invariant actions == old(actions) + FiredBy(before, durations, input, tick, combo)
      {
        if ComboPressed(combo, input) {
          if combos[combo].tick == 0 {
            combos := combos[combo := combos[combo].(tick := tick)];
          } else if !combos[combo].longPressed && Elapsed(tick, combos[combo].tick) > durations[combo] {
            combos := combos[combo := combos[combo].(longPressed := true)];
            actions := actions + [Fired(combo, true)];
          }
        } else if combos[combo].tick != 0 {
          if combos[combo].longPressed {
            combos := combos[combo := combos[combo].(longPressed := false)];
          } else {
            actions := actions + [Fired(combo, false)];
          }
          combos := combos[combo := combos[combo].(tick := 0)];
        }
        combo := combo + 1;
        assert combos == PolledAll(before, durations, input, tick, combo);
      }
      hotkeyCache := hotkeyCache[pad := combos];
    }

    /** Polls every controller, with no style and no buttons when it is gone; the clock is read once for
        each. No controller changes another one's cache. */
    method PollHidStates(round: Round)
      requires Valid() && IsRound(round)
      modifies this`hotkeyCache, this`actions
      ensures Valid() && hotkeyCache == PolledFirst(old(hotkeyCache), durations, round, |round.pads|)
      ensures actions == old(actions) + FiredByPads(old(hotkeyCache), durations, round, |round.pads|)
    {
      ghost var before := hotkeyCache;
      var i := 0;
      while i < PADS
        invariant 0 <= i <= PADS && Valid()
        invariant hotkeyCache == PolledFirst(before, durations, round, i)
        invariant actions == old(actions) + FiredByPads(before, durations, round, i)
      {
        Associative(old(actions), FiredByPads(before, durations, round, i),
                    FiredBy(before[i], durations, Seen(round.pads[i]), round.ticks[i], |durations|));
        if round.pads[i].states > 0 && round.pads[i].connected {
          ProcessHidState(i, round.pads[i].input, round.ticks[i]);
        } else {
          ProcessHidState(i, DISCONNECTED, round.ticks[i]);
        }
        i := i + 1;
      }
    }

    /** The loop of `ProcessThreadFunc`, for as many rounds as the service runs. */
    method PollWhileRunning(rounds: seq<Round>)
      requires Valid() && AreRounds(rounds) && hotkeyCache == Clear()
      modifies this`hotkeyCache, this`actions
      ensures Valid() && hotkeyCache == CachesAfter(rounds, durations, |rounds|)
      ensures actions == old(actions) + ExpectedLog(rounds, durations, |rounds|)
    {
      var i := 0;
      while i < |rounds|
        invariant 0 <= i <= |rounds| && Valid()
        invariant hotkeyCache == CachesAfter(rounds, durations, i)
        invariant actions == old(actions) + ExpectedLog(rounds, durations, i)
      {
        RoundIsLogged(old(actions), rounds, durations, i);
        PollHidStates(rounds[i]);
        i := i + 1;
      }
    }
  }
}
