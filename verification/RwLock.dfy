/** The non-blocking fragment of the reader-writer lock as a state machine: any number of threads
    run try-read, try-write, release-read and release-write, one atomic load, compare-exchange or
    plain store at a time, in any interleaving, with spurious compare-exchange failures.

    The lock word is the pair the code compares and swaps as one 64-bit value: the owner handle
    and the four counter fields (module `RwLockPacked` shows that the packed word behaves the same).
    Thread `t` has handle `t + 1`: distinct, never 0 and never carrying the wait bit. */
module RwLock {

  const COUNT_MAX := 0x7FFF   // ReadWriteLockCountMax
  const HANDLE_WAIT_MASK := 0x4000_0000

  datatype Word = Word(handle: int, readCount: int, writeLocked: bool, readWaiters: int, writeWaiters: int)

  datatype Pc =
    | Idle
    // TryAcquireReadLock by a thread that is not the owner
    | ReadLoad
    | ReadTry(expected: Word)
    // AcquireReadLockWriteLocked
    | ReadOwnLoad
    | ReadOwnCas(expected: Word)
    // TryAcquireWriteLock by the owner
    | WriteAgain
    // TryAcquireWriteLock by anybody else
    | WriteLoad
    | WriteTry(expected: Word)
    | WriteCount
    | WriteOwner
    // ReleaseReadLock by a thread that is not the owner
    | RelReadLoad
    | RelReadCas(expected: Word)
    // ReleaseReadLockWriteLocked
    | RelOwnLoad
    | RelOwnCas(expected: Word)
    // ReleaseWriteLock
    | RelWriteDec
    // ReleaseWriteLockImpl
    | ImplLoad
    | ImplTest(expected: Word)
    | ImplDisown(expected: Word)
    | ImplCas(expected: Word, lockCount: Word)

  /** `readHolds` and `writeHolds` count the holds the thread has been granted and not yet given back. */
  datatype Thread = Thread(pc: Pc, readHolds: int, writeHolds: int)

  /** `owner` is 0 for a null `owner_thread`, otherwise the handle of the thread. */
  datatype State = State(word: Word, owner: int, writeCount: int, threads: seq<Thread>)

  datatype Choice = TryRead | TryWrite | ReleaseRead | ReleaseWrite | Go | CasSucceeds | CasFails

  function HandleOf(t: nat): int { t + 1 }

  // ----- The code's edits of a word -----

  function IncRead(w: Word): Word { w.(readCount := w.readCount + 1) }

  function DecRead(w: Word): Word { w.(readCount := w.readCount - 1) }

  function LockedBy(w: Word, handle: int): Word { w.(writeLocked := true, handle := handle) }

  /** `ClearWriteLocked`, then keep the handle only if somebody waits on it. */
  function Cleared(w: Word): Word {
    w.(writeLocked := false, handle := if HasWaitBit(w.handle) then w.handle else 0)
  }

  predicate HasWaitBit(handle: int) { handle / HANDLE_WAIT_MASK % 2 == 1 }

  // ----- Steps -----

  /** When thread `t` may take step `c`. A thread gives back only holds it has; a failed
      assertion on a count bound stops the thread. */
  predicate Enabled(s: State, t: nat, c: Choice) {
    t < |s.threads| &&
    var th := s.threads[t];
    match th.pc
    case Idle =>
      c.TryRead? || c.TryWrite? || (c.ReleaseRead? && th.readHolds > 0) || (c.ReleaseWrite? && th.writeHolds > 0)
    case ReadTry(expected) =>
      if expected.writeLocked || expected.writeWaiters != 0 then c.Go?
      else expected.readCount < COUNT_MAX && (c.CasFails? || (c.CasSucceeds? && s.word == expected))
    case ReadOwnCas(expected) =>
      expected.readCount < COUNT_MAX && (c.CasFails? || (c.CasSucceeds? && s.word == expected))
    case WriteTry(expected) =>
      if expected.readCount > 0 || expected.handle != 0 then c.Go?
      else c.CasFails? || (c.CasSucceeds? && s.word == expected)
    case RelReadCas(expected) => c.CasFails? || (c.CasSucceeds? && s.word == expected)
    case RelOwnCas(expected) => c.CasFails? || (c.CasSucceeds? && s.word == expected)
    case ImplCas(expected, _) => c.CasFails? || (c.CasSucceeds? && s.word == expected)
    case WriteAgain => c.Go? && s.writeCount < COUNT_MAX
    case _ => c.Go?
  }

  function At(s: State, t: nat, pc: Pc): State
    requires t < |s.threads|
  {
    s.(threads := s.threads[t := s.threads[t].(pc := pc)])
  }

  function Next(s: State, t: nat, c: Choice): State
    requires Enabled(s, t, c)
  {
    var th := s.threads[t];
    var mine := s.owner == HandleOf(t);
    match th.pc
    case Idle =>
      (match c
       case TryRead => At(s, t, if mine then ReadOwnLoad else ReadLoad)
       case TryWrite => At(s, t, if mine then WriteAgain else WriteLoad)
       case ReleaseRead => At(s, t, if mine then RelOwnLoad else RelReadLoad)
       case _ => At(s, t, RelWriteDec))
    case ReadLoad => At(s, t, ReadTry(s.word))
    case ReadTry(expected) =>
      if c.Go? then At(s, t, Idle)
      else if c.CasFails? then At(s, t, ReadTry(s.word))
      else s.(word := IncRead(expected), threads := s.threads[t := Thread(Idle, th.readHolds + 1, th.writeHolds)])
    case ReadOwnLoad => At(s, t, ReadOwnCas(s.word))
    case ReadOwnCas(expected) =>
      if c.CasFails? then At(s, t, ReadOwnCas(s.word))
      else s.(word := IncRead(expected), threads := s.threads[t := Thread(Idle, th.readHolds + 1, th.writeHolds)])
    case WriteAgain =>
      s.(writeCount := s.writeCount + 1, threads := s.threads[t := Thread(Idle, th.readHolds, th.writeHolds + 1)])
    case WriteLoad => At(s, t, WriteTry(s.word))
    case WriteTry(expected) =>
      if c.Go? then At(s, t, Idle)
      else if c.CasFails? then At(s, t, WriteTry(s.word))
      else At(s.(word := LockedBy(expected, HandleOf(t))), t, WriteCount)
    case WriteCount =>
      s.(writeCount := s.writeCount + 1, threads := s.threads[t := Thread(WriteOwner, th.readHolds, th.writeHolds + 1)])
    case WriteOwner => At(s.(owner := HandleOf(t)), t, Idle)
    case RelReadLoad => At(s, t, RelReadCas(s.word))
    case RelReadCas(expected) =>
      if c.CasFails? then At(s, t, RelReadCas(s.word))
      else s.(word := DecRead(expected), threads := s.threads[t := Thread(Idle, th.readHolds - 1, th.writeHolds)])
    case RelOwnLoad => At(s, t, RelOwnCas(s.word))
    case RelOwnCas(expected) =>
      if c.CasFails? then At(s, t, RelOwnCas(s.word))
      else s.(word := DecRead(expected), threads := s.threads[t := Thread(ImplLoad, th.readHolds - 1, th.writeHolds)])
    case RelWriteDec =>
      s.(writeCount := s.writeCount - 1, threads := s.threads[t := Thread(ImplLoad, th.readHolds, th.writeHolds - 1)])
    case ImplLoad => At(s, t, ImplTest(s.word))
    case ImplTest(expected) =>
      At(s, t, if expected.readCount == 0 && s.writeCount == 0 then ImplDisown(expected) else Idle)
    case ImplDisown(expected) => At(s.(owner := 0), t, ImplCas(expected, Cleared(expected)))
    case ImplCas(expected, lockCount) =>
      // A failure refreshes `expected` but not `lockCount`, which the loop edits again in place
      if c.CasFails? then At(s, t, ImplCas(s.word, Cleared(lockCount)))
      else At(s.(word := lockCount), t, Idle)
  }

  function Initial(n: nat): State {
    State(Word(0, 0, false, 0, 0), 0, 0, seq(n, _ => Thread(Idle, 0, 0)))
  }

  // ----- The invariant -----

  function Reads(threads: seq<Thread>): int {
    if threads == [] then 0 else Reads(threads[..|threads| - 1]) + threads[|threads| - 1].readHolds
  }

  /** The write-locking thread. */
  predicate Writer(s: State, t: nat) { s.word.writeLocked && s.word.handle == HandleOf(t) }

  predicate WordOk(w: Word) {
    && 0 <= w.readCount && w.readWaiters == 0 && w.writeWaiters == 0
    && (w.writeLocked <==> w.handle != 0) && 0 <= w.handle < HANDLE_WAIT_MASK
  }

  /** What thread `t` knows at its program counter. */
  predicate PcOk(s: State, t: nat)
    requires t < |s.threads|
  {
    var th := s.threads[t];
    var mine := s.owner == HandleOf(t);
    match th.pc
    case Idle => Writer(s, t) == mine && (mine ==> th.readHolds + th.writeHolds > 0)
    case ReadLoad | WriteLoad => !Writer(s, t) && !mine
    case ReadTry(expected) => !Writer(s, t) && !mine && WordOk(expected)
    case WriteTry(expected) => !Writer(s, t) && !mine && WordOk(expected)
    case ReadOwnLoad | WriteAgain => Writer(s, t) && mine && th.readHolds + th.writeHolds > 0
    case ReadOwnCas(expected) => Writer(s, t) && mine && expected == s.word && th.readHolds + th.writeHolds > 0
    case WriteCount => Writer(s, t) && s.owner == 0 && th.readHolds == 0 && th.writeHolds == 0
    case WriteOwner => Writer(s, t) && s.owner == 0 && th.writeHolds == 1
    case RelReadLoad => !Writer(s, t) && !mine && th.readHolds > 0
    case RelReadCas(expected) => !Writer(s, t) && !mine && th.readHolds > 0 && WordOk(expected)
        && expected.readCount > 0
    case RelOwnLoad => Writer(s, t) && mine && th.readHolds > 0
    case RelOwnCas(expected) => Writer(s, t) && mine && th.readHolds > 0 && expected == s.word
    case RelWriteDec => Writer(s, t) && mine && th.writeHolds > 0
    case ImplLoad => Writer(s, t) && mine
    case ImplTest(expected) => Writer(s, t) && mine && expected == s.word
    case ImplDisown(expected) =>
      Writer(s, t) && mine && expected == s.word && th.readHolds == 0 && th.writeHolds == 0
    case ImplCas(expected, lockCount) =>
      Writer(s, t) && s.owner == 0 && expected == s.word && lockCount == Cleared(s.word)
      && th.readHolds == 0 && th.writeHolds == 0
  }

  /** While the word is write-locked, every thread but the writer holds nothing; nobody holds
      write while it is not. */
  predicate HoldsOk(s: State, t: nat)
    requires t < |s.threads|
  {
    && s.threads[t].readHolds >= 0 && s.threads[t].writeHolds >= 0
    && (s.word.writeLocked && !Writer(s, t) ==> s.threads[t].readHolds == 0)
    && (!Writer(s, t) ==> s.threads[t].writeHolds == 0)
    && (Writer(s, t) ==> s.writeCount == s.threads[t].writeHolds)
  }

  predicate Inv(s: State) {
    && WordOk(s.word) && |s.threads| < HANDLE_WAIT_MASK
    && s.word.handle <= |s.threads|
    && s.word.readCount == Reads(s.threads)
    && (!s.word.writeLocked ==> s.writeCount == 0 && s.owner == 0)
    && (s.owner != 0 ==> s.owner == s.word.handle)
    && (forall t | 0 <= t < |s.threads| :: PcOk(s, t))
    && (forall t | 0 <= t < |s.threads| :: HoldsOk(s, t))
  }

  // ----- Sums -----

  lemma {:induction false} ReadsUpdate(threads: seq<Thread>, t: nat, th: Thread)
    requires t < |threads|
    ensures Reads(threads[t := th]) == Reads(threads) - threads[t].readHolds + th.readHolds
  {
    var n := |threads| - 1;
    if t < n {
      assert threads[t := th][..n] == threads[..n][t := th];
      ReadsUpdate(threads[..n], t, th);
    } else {
      assert threads[t := th][..n] == threads[..n];
    }
  }

  lemma {:induction false} ReadsAtLeast(threads: seq<Thread>, t: nat)
    requires t < |threads| && forall u | 0 <= u < |threads| :: threads[u].readHolds >= 0
    ensures Reads(threads) >= threads[t].readHolds && Reads(threads[..|threads| - 1]) >= 0
  {
    ReadsNonNegative(threads[..|threads| - 1]);
    if t < |threads| - 1 { ReadsAtLeast(threads[..|threads| - 1], t); }
  }

  lemma {:induction false} ReadsNonNegative(threads: seq<Thread>)
    requires forall u | 0 <= u < |threads| :: threads[u].readHolds >= 0
    ensures Reads(threads) >= 0
  {
    if threads != [] { ReadsNonNegative(threads[..|threads| - 1]); }
  }

  lemma {:induction false} ReadsOnly(threads: seq<Thread>, t: nat)
    requires t < |threads| && forall u | 0 <= u < |threads| && u != t :: threads[u].readHolds == 0
    ensures Reads(threads) == threads[t].readHolds
  {
    var n := |threads| - 1;
    if t < n { ReadsOnly(threads[..n], t); } else { ReadsNone(threads[..n]); }
  }

  lemma {:induction false} ReadsNone(threads: seq<Thread>)
    requires forall u | 0 <= u < |threads| :: threads[u].readHolds == 0
    ensures Reads(threads) == 0
  {
    if threads != [] { ReadsNone(threads[..|threads| - 1]); }
  }

  lemma NonNegative(s: State)
    requires Inv(s)
    ensures forall u | 0 <= u < |s.threads| :: s.threads[u].readHolds >= 0
  {
    forall u | 0 <= u < |s.threads| ensures s.threads[u].readHolds >= 0 { assert HoldsOk(s, u); }
  }

  lemma WriterReads(s: State, t: nat)
    requires Inv(s) && t < |s.threads| && Writer(s, t)
    ensures s.word.readCount == s.threads[t].readHolds
  {
    forall u | 0 <= u < |s.threads| && u != t ensures s.threads[u].readHolds == 0 {
      assert HoldsOk(s, u);
    }
    ReadsOnly(s.threads, t);
  }

  // ----- Every step keeps the invariant -----

  lemma InitialInv(n: nat)
    requires n < HANDLE_WAIT_MASK
    ensures Inv(Initial(n))
  {
    ReadsNone(Initial(n).threads);
  }

  /** A step that leaves the shared lock alone disturbs no other thread. */
  lemma LocalStep(s: State, t: nat, th: Thread)
    requires Inv(s) && t < |s.threads|
    requires th.readHolds == s.threads[t].readHolds && th.writeHolds == s.threads[t].writeHolds
    requires PcOk(s.(threads := s.threads[t := th]), t)
    ensures Inv(s.(threads := s.threads[t := th]))
  {
    var r := s.(threads := s.threads[t := th]);
    ReadsUpdate(s.threads, t, th);
    forall u | 0 <= u < |r.threads| ensures PcOk(r, u) && HoldsOk(r, u) {
      assert PcOk(s, u) && HoldsOk(s, u);
    }
  }

  /** A step by the writer: everybody else only sees that the writer is not them. */
  lemma WriterStep(s: State, t: nat, r: State)
    requires Inv(s) && t < |s.threads| && Writer(s, t)
    requires |r.threads| == |s.threads| && r.threads == s.threads[t := r.threads[t]]
    requires WordOk(r.word) && r.owner in {0, HandleOf(t)} && r.word.handle in {0, HandleOf(t)}
    requires r.word.readCount - s.word.readCount == r.threads[t].readHolds - s.threads[t].readHolds
    requires !r.word.writeLocked ==> r.writeCount == 0 && r.owner == 0 && r.threads[t].writeHolds == 0
    requires r.writeCount == r.threads[t].writeHolds && r.threads[t].readHolds >= 0 && r.threads[t].writeHolds >= 0
    requires PcOk(r, t)
    ensures Inv(r)
  {
    ReadsUpdate(s.threads, t, r.threads[t]);
    forall u | 0 <= u < |r.threads| ensures PcOk(r, u) && HoldsOk(r, u) {
      assert PcOk(s, u) && HoldsOk(s, u);
    }
  }

  /** A reader that is not the owner comes or goes: the word was not write-locked. */
  lemma ReaderStep(s: State, t: nat, delta: int)
    requires Inv(s) && t < |s.threads| && !s.word.writeLocked
    requires s.threads[t].readHolds + delta >= 0 && s.word.readCount + delta >= 0
    ensures Inv(s.(word := s.word.(readCount := s.word.readCount + delta),
                   threads := s.threads[t := Thread(Idle, s.threads[t].readHolds + delta, s.threads[t].writeHolds)]))
  {
    var th := Thread(Idle, s.threads[t].readHolds + delta, s.threads[t].writeHolds);
    var r := s.(word := s.word.(readCount := s.word.readCount + delta), threads := s.threads[t := th]);
    ReadsUpdate(s.threads, t, th);
    forall u | 0 <= u < |r.threads| ensures PcOk(r, u) && HoldsOk(r, u) {
      assert PcOk(s, u) && HoldsOk(s, u);
    }
  }

  /** The winner of the write race: nobody held anything. */
  lemma LockStep(s: State, t: nat)
    requires Inv(s) && t < |s.threads| && s.word.readCount == 0 && s.word.handle == 0
    ensures Inv(At(s.(word := LockedBy(s.word, HandleOf(t))), t, WriteCount))
  {
    var r := At(s.(word := LockedBy(s.word, HandleOf(t))), t, WriteCount);
    ReadsUpdate(s.threads, t, r.threads[t]);
    NonNegative(s);
    forall u | 0 <= u < |r.threads| ensures PcOk(r, u) && HoldsOk(r, u) {
      assert PcOk(s, u) && HoldsOk(s, u);
      ReadsAtLeast(s.threads, u);
    }
  }

  lemma NoWaitBit(w: Word)
    requires WordOk(w)
    ensures Cleared(w).handle == 0 && !Cleared(w).writeLocked
  {
  }

  /** A step of the writer, seen by itself. */
  lemma WriterMoves(s: State, t: nat, c: Choice)
    requires WordOk(s.word) && Enabled(s, t, c) && PcOk(s, t) && HoldsOk(s, t) && Writer(s, t)
    requires s.word.readCount == s.threads[t].readHolds && s.owner in {0, HandleOf(t)} && Cleared(s.word).handle == 0
    ensures var r := Next(s, t, c);
            && |r.threads| == |s.threads| && r.threads == s.threads[t := r.threads[t]]
            && WordOk(r.word) && r.owner in {0, HandleOf(t)} && r.word.handle in {0, HandleOf(t)}
            && r.word.readCount - s.word.readCount == r.threads[t].readHolds - s.threads[t].readHolds
            && (!r.word.writeLocked ==> r.writeCount == 0 && r.owner == 0 && r.threads[t].writeHolds == 0)
            && r.writeCount == r.threads[t].writeHolds && r.threads[t].readHolds >= 0 && r.threads[t].writeHolds >= 0
            && PcOk(r, t)
  {
  }

  lemma WriterKeepsInv(s: State, t: nat, c: Choice)
    requires Inv(s) && Enabled(s, t, c) && Writer(s, t)
    ensures Inv(Next(s, t, c))
  {
    assert PcOk(s, t) && HoldsOk(s, t);
    WriterReads(s, t);
    NoWaitBit(s.word);
    WriterMoves(s, t, c);
    WriterStep(s, t, Next(s, t, c));
  }

  /** The steps by which another thread changes the word. */
  predicate Takes(s: State, t: nat, c: Choice)
    requires t < |s.threads|
  {
    c.CasSucceeds? && (s.threads[t].pc.ReadTry? || s.threads[t].pc.RelReadCas? || s.threads[t].pc.WriteTry?)
  }

  lemma OthersMove(s: State, t: nat, c: Choice)
    requires WordOk(s.word) && Enabled(s, t, c) && PcOk(s, t) && HoldsOk(s, t) && !Writer(s, t) && !Takes(s, t, c)
    requires s.word.readCount >= s.threads[t].readHolds
    ensures var r := Next(s, t, c);
            && r == s.(threads := s.threads[t := r.threads[t]])
            && r.threads[t].readHolds == s.threads[t].readHolds && r.threads[t].writeHolds == s.threads[t].writeHolds
            && PcOk(r, t)
  {
  }

  lemma OthersTake(s: State, t: nat, c: Choice)
    requires Inv(s) && Enabled(s, t, c) && !Writer(s, t) && Takes(s, t, c)
    ensures Inv(Next(s, t, c))
  {
    assert PcOk(s, t) && HoldsOk(s, t);
    if s.threads[t].pc.ReadTry? {
      ReaderStep(s, t, 1);
    } else if s.threads[t].pc.RelReadCas? {
      ReaderStep(s, t, -1);
    } else {
      LockStep(s, t);
    }
  }

  lemma StepKeepsInv(s: State, t: nat, c: Choice)
    requires Inv(s) && Enabled(s, t, c)
    ensures Inv(Next(s, t, c))
  {
    if Writer(s, t) {
      WriterKeepsInv(s, t, c);
    } else if Takes(s, t, c) {
      OthersTake(s, t, c);
    } else {
      assert PcOk(s, t) && HoldsOk(s, t);
      NonNegative(s);
      ReadsAtLeast(s.threads, t);
      OthersMove(s, t, c);
      LocalStep(s, t, Next(s, t, c).threads[t]);
    }
  }

  // ----- What the invariant means -----

  /** No thread holds write while another holds read or write. */
  predicate Exclusive(s: State) {
    forall t, u | 0 <= t < |s.threads| && 0 <= u < |s.threads| && t != u && s.threads[t].writeHolds > 0 ::
      s.threads[u].readHolds == 0 && s.threads[u].writeHolds == 0
  }

  lemma InvIsExclusive(s: State)
    requires Inv(s)
    ensures Exclusive(s)
  {
    forall t, u | 0 <= t < |s.threads| && 0 <= u < |s.threads| && t != u && s.threads[t].writeHolds > 0
      ensures s.threads[u].readHolds == 0 && s.threads[u].writeHolds == 0
    {
      assert HoldsOk(s, t) && HoldsOk(s, u);
    }
  }

  ghost predicate IsStep(s: State, r: State) {
    exists t: nat, c: Choice :: Enabled(s, t, c) && r == Next(s, t, c)
  }

  ghost predicate IsRun(run: seq<State>, n: nat) {
    && run != [] && run[0] == Initial(n)
    && forall i | 0 <= i < |run| - 1 :: IsStep(run[i], run[i + 1])
  }

  /** Safety of every interleaving: exclusion, and a word that counts exactly the outstanding
      read holds and carries a handle exactly when it is write-locked. */
  lemma {:induction false} RunIsSafe(run: seq<State>, n: nat, i: nat)
    requires n < HANDLE_WAIT_MASK && IsRun(run, n) && i < |run|
    ensures Inv(run[i]) && Exclusive(run[i])
    ensures run[i].word.readCount == Reads(run[i].threads)
    ensures run[i].word.handle != 0 <==> run[i].word.writeLocked
  {
    if i == 0 {
      InitialInv(n);
    } else {
      RunIsSafe(run, n, i - 1);
      assert IsStep(run[i - 1], run[i]);
      var t: nat, c: Choice :| Enabled(run[i - 1], t, c) && run[i] == Next(run[i - 1], t, c);
      StepKeepsInv(run[i - 1], t, c);
    }
    InvIsExclusive(run[i]);
  }

  /** The assertions the code makes on the way, step by step. */
  predicate AssertionsHold(s: State, t: nat, c: Choice)
    requires Enabled(s, t, c)
  {
    var th := s.threads[t];
    var mine := s.word.writeLocked && s.word.handle == HandleOf(t);
    match th.pc
    case Idle =>
      && (c.TryWrite? && s.owner == HandleOf(t) ==> s.word.writeLocked)
      && (c.ReleaseRead? ==> s.word.readCount > 0)
      && (c.ReleaseWrite? ==> s.owner == HandleOf(t) && s.writeCount > 0 && s.word.writeLocked)
    case ReadTry(expected) => !expected.writeLocked || expected.handle != 0
    case ReadOwnLoad => mine
    case WriteTry(expected) => !expected.writeLocked || expected.handle != 0
    case WriteCount => s.writeCount == 0
    case RelReadCas(expected) => expected.readCount > 0 && expected.writeWaiters == 0
    case RelOwnLoad => mine
    case RelOwnCas(expected) => expected.readCount > 0
    case RelWriteDec => s.writeCount > 0
    case ImplTest(expected) => expected.writeLocked
    case ImplDisown(expected) => expected.readWaiters == 0 && expected.writeWaiters == 0
    case ImplCas(_, lockCount) => lockCount.handle == 0 && !lockCount.writeLocked
    case _ => true
  }

  /** None of those assertions ever fails; the contended exit of the read release is never taken,
      and a release never has anybody to signal or to hand the word to. */
  lemma NoAssertionFails(s: State, t: nat, c: Choice)
    requires Inv(s) && Enabled(s, t, c)
    ensures AssertionsHold(s, t, c)
  {
    assert PcOk(s, t) && HoldsOk(s, t);
    NonNegative(s);
    ReadsAtLeast(s.threads, t);
    NoWaitBit(s.word);
    if Writer(s, t) { WriterReads(s, t); }
  }

  /** A try can only fail because of a word in which somebody really had the lock: a write-locked
      word has a writer, a positive count has a reader. */
  lemma BusyMeansHeld(s: State)
    requires Inv(s)
    ensures s.word.handle != 0 ==> exists t: nat :: t < |s.threads| && Writer(s, t)
    ensures s.word.readCount > 0 ==> exists t: nat :: t < |s.threads| && s.threads[t].readHolds > 0
  {
    if s.word.handle != 0 { assert Writer(s, s.word.handle - 1); }
    if s.word.readCount > 0 {
      NonNegative(s);
      var t := SomeReader(s.threads);
    }
  }

  lemma {:induction false} SomeReader(threads: seq<Thread>) returns (t: nat)
    requires Reads(threads) > 0 && forall u | 0 <= u < |threads| :: threads[u].readHolds >= 0
    ensures t < |threads| && threads[t].readHolds > 0
  {
    t := |threads| - 1;
    if threads[t].readHolds == 0 { t := SomeReader(threads[..t]); }
  }

  /** Nothing leaks: once every thread is idle and has given its holds back, the lock is in its
      initial state again, whatever the interleaving was. */
  lemma QuiescentIsFree(s: State)
    requires Inv(s)
    requires forall t | 0 <= t < |s.threads| :: s.threads[t] == Thread(Idle, 0, 0)
    ensures s == Initial(|s.threads|)
  {
    ReadsNone(s.threads);
    WriterIsBusy(s);
  }

  lemma WriterIsBusy(s: State)
    requires Inv(s)
    ensures s.word.handle != 0 ==> s.threads[s.word.handle - 1] != Thread(Idle, 0, 0)
  {
    if s.word.handle != 0 { assert PcOk(s, s.word.handle - 1); }
  }
}
