/** What a call of the lock comes to when its thread is left alone: when a try is granted, and that a
    release undoes it. */
module RwLockTries {
  import opened RwLock

  /** The thread goes on without a spurious failure. */
  function Alone(s: State, t: nat): Choice { if Enabled(s, t, CasSucceeds) then CasSucceeds else Go }

  lemma AloneIsTheOnlyWay(s: State, t: nat, c: Choice)
    requires Enabled(s, t, c) && !s.threads[t].pc.Idle? && !c.CasFails?
    ensures c == Alone(s, t)
  {
  }

  /** At most `n` more steps of thread `t`, until it is idle. */
  function Finish(s: State, t: nat, n: nat): State
    requires t < |s.threads|
    decreases n
  {
    if n == 0 || s.threads[t].pc.Idle? || !Enabled(s, t, Alone(s, t)) then s
    else Finish(Next(s, t, Alone(s, t)), t, n - 1)
  }

  /** A call of thread `t`: no call takes more than six steps. */
  function Call(s: State, t: nat, c: Choice): State
    requires t < |s.threads| && Enabled(s, t, c)
  {
    Finish(Next(s, t, c), t, 6)
  }

  predicate Ready(s: State, t: nat) { t < |s.threads| && s.threads[t].pc.Idle? }

  /** Thread `t` comes to hold so much for reading and writing, and is idle. */
  function Holding(s: State, t: nat, read: int, write: int): State
    requires t < |s.threads|
  {
    s.(threads := s.threads[t := Thread(Idle, read, write)])
  }

  // ----- What each call should come to -----

  predicate HasWrite(s: State, u: nat) { s.word.writeLocked && s.word.handle == u + 1 }

  /** A read is granted unless another thread has the lock for writing. */
  function ReadTried(s: State, t: nat): State
    requires t < |s.threads|
  {
    if s.word.writeLocked && !HasWrite(s, t) then s
    else
      Holding(s, t, s.threads[t].readHolds + 1, s.threads[t].writeHolds)
      .(word := s.word.(readCount := s.word.readCount + 1))
  }

  /** Nobody holds the lock, or is about to. */
  predicate Unheld(s: State) {
    && !s.word.writeLocked
    && forall u | 0 <= u < |s.threads| :: s.threads[u].readHolds == 0 && s.threads[u].writeHolds == 0
  }

  /** A write is granted to the thread that has the lock for writing already, and to any other one if
      nobody holds anything. */
  function WriteTried(s: State, t: nat): State
    requires t < |s.threads|
  {
    var th := s.threads[t];
    if HasWrite(s, t) then
      Holding(s, t, th.readHolds, th.writeHolds + 1).(writeCount := s.writeCount + 1)
    else if Unheld(s) then
      Holding(s, t, 0, 1).(writeCount := 1, owner := t + 1, word := s.word.(writeLocked := true, handle := t + 1))
    else s
  }

  /** The last hold of the writing thread frees the lock. */
  function Released(s: State, t: nat, read: int, write: int): State
    requires t < |s.threads|
  {
    if s.word.writeLocked && read == 0 && write == 0
    then Holding(s, t, 0, 0).(owner := 0, word := s.word.(writeLocked := false, handle := 0))
    else Holding(s, t, read, write)
  }

  function ReadReleased(s: State, t: nat): State
    requires t < |s.threads|
  {
    Released(s.(word := s.word.(readCount := s.word.readCount - 1)), t, s.threads[t].readHolds - 1,
             s.threads[t].writeHolds)
  }

  function WriteReleased(s: State, t: nat): State
    requires t < |s.threads|
  {
    Released(s.(writeCount := s.writeCount - 1), t, s.threads[t].readHolds, s.threads[t].writeHolds - 1)
  }

  // ----- And does -----

  lemma FinishStep(s: State, t: nat, n: nat, r: State)
    requires t < |s.threads| && n > 0 && !s.threads[t].pc.Idle? && Enabled(s, t, Alone(s, t))
    requires r == Next(s, t, Alone(s, t)) && |r.threads| == |s.threads|
    ensures Finish(s, t, n) == Finish(r, t, n - 1)
  {
  }

  lemma IdleAgain(s: State, t: nat)
    requires Ready(s, t)
    ensures At(s, t, Idle) == s
  {
    assert s.threads[t := s.threads[t]] == s.threads;
  }

  lemma ReadByOwner(s: State, t: nat)
    requires Inv(s) && Ready(s, t) && s.owner == t + 1 && s.word.readCount < COUNT_MAX
    ensures Call(s, t, TryRead) == ReadTried(s, t)
  {
    assert PcOk(s, t);
    var s1 := At(s, t, ReadOwnLoad);
    var s2 := At(s, t, ReadOwnCas(s.word));
    FinishStep(s1, t, 6, s2);
    FinishStep(s2, t, 5, ReadTried(s, t));
  }

  lemma ReadByOther(s: State, t: nat)
    requires Inv(s) && Ready(s, t) && s.owner != t + 1 && s.word.readCount < COUNT_MAX
    ensures Call(s, t, TryRead) == ReadTried(s, t)
  {
    assert PcOk(s, t);
    IdleAgain(s, t);
    var s1 := At(s, t, ReadLoad);
    var s2 := At(s, t, ReadTry(s.word));
    FinishStep(s1, t, 6, s2);
    FinishStep(s2, t, 5, ReadTried(s, t));
  }

  /** Below the bound of the read count, a try to read that is left alone ends with one read hold more
      if and only if no other thread has the lock for writing, and changes nothing otherwise. */
  lemma TryReadOutcome(s: State, t: nat)
    requires Inv(s) && Ready(s, t) && s.word.readCount < COUNT_MAX
    ensures Call(s, t, TryRead) == ReadTried(s, t)
    ensures Call(s, t, TryRead).threads[t].readHolds == s.threads[t].readHolds + 1
       <==> !exists u: nat | u < |s.threads| && u != t :: HasWrite(s, u)
  {
    if s.owner == t + 1 { ReadByOwner(s, t); } else { ReadByOther(s, t); }
    if s.word.writeLocked { assert HasWrite(s, s.word.handle - 1); }
  }

  lemma WriteAgainOutcome(s: State, t: nat)
    requires Inv(s) && Ready(s, t) && s.owner == t + 1 && s.writeCount < COUNT_MAX
    ensures Call(s, t, TryWrite) == WriteTried(s, t)
  {
    assert PcOk(s, t);
    FinishStep(At(s, t, WriteAgain), t, 6, WriteTried(s, t));
  }

  lemma FreeWord(s: State)
    requires Inv(s)
    ensures Unheld(s) <==> s.word.readCount == 0 && s.word.handle == 0
    ensures s.word.readCount == 0 ==> forall u | 0 <= u < |s.threads| :: s.threads[u].readHolds == 0
  {
    NonNegative(s);
    forall u | 0 <= u < |s.threads| ensures s.word.readCount == 0 ==> s.threads[u].readHolds == 0 {
      ReadsAtLeast(s.threads, u);
    }
    forall u | 0 <= u < |s.threads| ensures !s.word.writeLocked ==> s.threads[u].writeHolds == 0 {
      assert HoldsOk(s, u);
    }
    if Unheld(s) { ReadsNone(s.threads); }
  }

  lemma WriteByOther(s: State, t: nat)
    requires Inv(s) && Ready(s, t) && s.owner != t + 1
    ensures Call(s, t, TryWrite) == WriteTried(s, t)
  {
    assert PcOk(s, t);
    FreeWord(s);
    IdleAgain(s, t);
    var s1 := At(s, t, WriteLoad);
    var s2 := At(s, t, WriteTry(s.word));
    FinishStep(s1, t, 6, s2);
    if Unheld(s) {
      var w := s.(word := LockedBy(s.word, t + 1));
      var s3 := At(w, t, WriteCount);
      var s4 := w.(writeCount := 1, threads := s.threads[t := Thread(WriteOwner, 0, 1)]);
      FinishStep(s2, t, 5, s3);
      FinishStep(s3, t, 4, s4);
      FinishStep(s4, t, 3, WriteTried(s, t));
    } else {
      FinishStep(s2, t, 5, s);
    }
  }

  /** Below the bound of the write count, a try to write that is left alone ends with one write hold
      more if and only if the thread has the lock for writing or nobody holds anything. */
  lemma TryWriteOutcome(s: State, t: nat)
    requires Inv(s) && Ready(s, t) && s.writeCount < COUNT_MAX
    ensures Call(s, t, TryWrite) == WriteTried(s, t)
    ensures Call(s, t, TryWrite).threads[t].writeHolds == s.threads[t].writeHolds + 1
       <==> HasWrite(s, t) || Unheld(s)
  {
    if s.owner == t + 1 { WriteAgainOutcome(s, t); } else { WriteByOther(s, t); }
  }

  /** `ReleaseWriteLockImpl` from its first load on, by the thread that has the lock for writing. */
  lemma ImplOutcome(s: State, t: nat, n: nat)
    requires t < |s.threads| && n >= 4 && s.threads[t].pc.ImplLoad? && s.owner == t + 1 && WordOk(s.word)
    requires s.word.writeLocked && s.word.handle == t + 1
    requires s.word.readCount == s.threads[t].readHolds && s.writeCount == s.threads[t].writeHolds
    ensures Finish(s, t, n) == Released(s, t, s.threads[t].readHolds, s.threads[t].writeHolds)
  {
    var s1 := At(s, t, ImplTest(s.word));
    FinishStep(s, t, n, s1);
    if s.word.readCount == 0 && s.writeCount == 0 {
      NoWaitBit(s.word);
      var s2 := At(s, t, ImplDisown(s.word));
      var s3 := At(s.(owner := 0), t, ImplCas(s.word, Cleared(s.word)));
      FinishStep(s1, t, n - 1, s2);
      FinishStep(s2, t, n - 2, s3);
      FinishStep(s3, t, n - 3, Released(s, t, 0, 0));
    } else {
      FinishStep(s1, t, n - 1, At(s, t, Idle));
    }
  }

  lemma Overwritten(threads: seq<Thread>, t: nat, x: Thread, y: Thread)
    requires t < |threads|
    ensures threads[t := x][t := y] == threads[t := y]
  {
  }

  lemma OwnReadGivenBack(s: State, t: nat)
    requires Ready(s, t) && s.threads[t].readHolds > 0 && s.owner == t + 1 && WordOk(s.word) && HasWrite(s, t)
    requires s.word.readCount == s.threads[t].readHolds && s.writeCount == s.threads[t].writeHolds
    ensures Call(s, t, ReleaseRead) == ReadReleased(s, t)
  {
    var th := s.threads[t];
    var given := Thread(ImplLoad, th.readHolds - 1, th.writeHolds);
    var s1 := At(s, t, RelOwnLoad);
    var s2 := At(s, t, RelOwnCas(s.word));
    var s3 := s.(word := DecRead(s.word), threads := s.threads[t := given]);
    FinishStep(s1, t, 6, s2);
    FinishStep(s2, t, 5, s3);
    ImplOutcome(s3, t, 4);
    Overwritten(s.threads, t, given, Thread(Idle, th.readHolds - 1, th.writeHolds));
  }

  lemma ReleaseReadByOwner(s: State, t: nat)
    requires Inv(s) && Ready(s, t) && s.threads[t].readHolds > 0 && s.owner == t + 1
    ensures Call(s, t, ReleaseRead) == ReadReleased(s, t)
  {
    assert PcOk(s, t) && HoldsOk(s, t);
    WriterReads(s, t);
    OwnReadGivenBack(s, t);
  }

  lemma ReleaseReadByOther(s: State, t: nat)
    requires Inv(s) && Ready(s, t) && s.threads[t].readHolds > 0 && s.owner != t + 1
    ensures Call(s, t, ReleaseRead) == ReadReleased(s, t)
  {
    assert PcOk(s, t) && HoldsOk(s, t);
    var s1 := At(s, t, RelReadLoad);
    var s2 := At(s, t, RelReadCas(s.word));
    FinishStep(s1, t, 6, s2);
    FinishStep(s2, t, 5, ReadReleased(s, t));
  }

  /** A release of a read hold gives back that hold, and the lock with the last hold of its writer. */
  lemma ReleaseReadOutcome(s: State, t: nat)
    requires Inv(s) && Ready(s, t) && s.threads[t].readHolds > 0
    ensures Call(s, t, ReleaseRead) == ReadReleased(s, t)
  {
    if s.owner == t + 1 { ReleaseReadByOwner(s, t); } else { ReleaseReadByOther(s, t); }
  }

  lemma ReleaseWriteOutcome(s: State, t: nat)
    requires Inv(s) && Ready(s, t) && s.threads[t].writeHolds > 0
    ensures Call(s, t, ReleaseWrite) == WriteReleased(s, t)
  {
    assert PcOk(s, t) && HoldsOk(s, t);
    WriterReads(s, t);
    var s1 := At(s, t, RelWriteDec);
    var s2 := s.(writeCount := s.writeCount - 1,
                 threads := s.threads[t := Thread(ImplLoad, s.threads[t].readHolds, s.threads[t].writeHolds - 1)]);
    FinishStep(s1, t, 6, s2);
    ImplOutcome(s2, t, 5);
  }

  // ----- A compare-exchange that fails -----

  lemma ReadStartsOver(s: State, t: nat)
    requires Inv(s) && t < |s.threads| && (s.threads[t].pc.ReadTry? || s.threads[t].pc.ReadOwnCas?)
    requires Enabled(s, t, CasFails) && s.word.readCount < COUNT_MAX
    ensures Finish(Next(s, t, CasFails), t, 6) == ReadTried(At(s, t, Idle), t)
  {
    assert PcOk(s, t);
    var s1, idle := Next(s, t, CasFails), At(s, t, Idle);
    assert ReadTried(idle, t).threads == s.threads[t := ReadTried(idle, t).threads[t]];
    FinishStep(s1, t, 6, ReadTried(idle, t));
  }

  lemma IdleIsUnheld(s: State, t: nat)
    requires t < |s.threads|
    ensures Unheld(At(s, t, Idle)) <==> Unheld(s)
  {
    var idle := At(s, t, Idle);
    forall u | 0 <= u < |s.threads|
      ensures idle.threads[u].readHolds == s.threads[u].readHolds
              && idle.threads[u].writeHolds == s.threads[u].writeHolds
    {
    }
  }

  /** The last steps of a granted write. */
  lemma WriteGranted(s: State, t: nat)
    requires t < |s.threads| && s.threads[t] == Thread(WriteTry(s.word), 0, 0) && s.writeCount == 0
    requires s.word.readCount == 0 && s.word.handle == 0
    ensures Finish(s, t, 6) == Holding(s, t, 0, 1).(writeCount := 1, owner := t + 1, word := LockedBy(s.word, t + 1))
  {
    var w := s.(word := LockedBy(s.word, t + 1));
    var s3 := At(w, t, WriteCount);
    var s4 := w.(writeCount := 1, threads := s.threads[t := Thread(WriteOwner, 0, 1)]);
    FinishStep(s, t, 6, s3);
    FinishStep(s3, t, 5, s4);
    FinishStep(s4, t, 4, Holding(s, t, 0, 1).(writeCount := 1, owner := t + 1, word := w.word));
  }

  lemma WriteStartsOver(s: State, t: nat)
    requires Inv(s) && t < |s.threads| && s.threads[t].pc.WriteTry? && Enabled(s, t, CasFails)
    ensures Finish(Next(s, t, CasFails), t, 6) == WriteTried(At(s, t, Idle), t)
  {
    assert PcOk(s, t) && HoldsOk(s, t);
    FreeWord(s);
    IdleIsUnheld(s, t);
    var again, idle := At(s, t, WriteTry(s.word)), At(s, t, Idle);
    Overwritten(s.threads, t, again.threads[t], Thread(Idle, 0, 1));
    Overwritten(s.threads, t, idle.threads[t], Thread(Idle, 0, 1));
    if Unheld(s) {
      WriteGranted(again, t);
    } else {
      FinishStep(again, t, 6, idle);
    }
  }

  lemma ReleaseStartsOver(s: State, t: nat)
    requires Inv(s) && t < |s.threads| && (s.threads[t].pc.RelReadCas? || s.threads[t].pc.RelOwnCas?)
    ensures Finish(Next(s, t, CasFails), t, 6) == ReadReleased(At(s, t, Idle), t)
  {
    assert PcOk(s, t) && HoldsOk(s, t);
    var th, s1, idle := s.threads[t], Next(s, t, CasFails), At(s, t, Idle);
    if th.pc.RelOwnCas? {
      WriterReads(s, t);
      var given := Thread(ImplLoad, th.readHolds - 1, th.writeHolds);
      var s2 := s.(word := DecRead(s.word), threads := s.threads[t := given]);
      FinishStep(s1, t, 6, s2);
      ImplOutcome(s2, t, 5);
      Overwritten(s.threads, t, given, Thread(Idle, th.readHolds - 1, th.writeHolds));
      Overwritten(s.threads, t, th.(pc := Idle), Thread(Idle, th.readHolds - 1, th.writeHolds));
    } else {
      Overwritten(s.threads, t, th.(pc := Idle), Thread(Idle, th.readHolds - 1, th.writeHolds));
      FinishStep(s1, t, 6, ReadReleased(idle, t));
    }
  }

  lemma ImplStartsOver(s: State, t: nat)
    requires Inv(s) && t < |s.threads| && s.threads[t].pc.ImplCas?
    ensures Finish(Next(s, t, CasFails), t, 6) == Released(At(s, t, Idle), t, 0, 0)
  {
    assert PcOk(s, t);
    NoWaitBit(s.word);
    var s1, idle := Next(s, t, CasFails), At(s, t, Idle);
    Overwritten(s.threads, t, s.threads[t].(pc := Idle), Thread(Idle, 0, 0));
    FinishStep(s1, t, 6, Released(idle, t, 0, 0));
  }

  /** A compare-exchange that fails, for whatever reason, costs nothing but time: left alone, the call
      then comes to what it would have come to had it begun at that moment. */
  lemma FailureStartsOver(s: State, t: nat)
    requires Inv(s) && Enabled(s, t, CasFails) && s.word.readCount < COUNT_MAX
    ensures var r, idle := Finish(Next(s, t, CasFails), t, 6), At(s, t, Idle);
            match s.threads[t].pc
            case ReadTry(_) => r == ReadTried(idle, t)
            case ReadOwnCas(_) => r == ReadTried(idle, t)
            case WriteTry(_) => r == WriteTried(idle, t)
            case RelReadCas(_) => r == ReadReleased(idle, t)
            case RelOwnCas(_) => r == ReadReleased(idle, t)
            case ImplCas(_, _) => r == Released(idle, t, 0, 0)
            case _ => false
  {
    match s.threads[t].pc
    case ReadTry(_) => ReadStartsOver(s, t);
    case ReadOwnCas(_) => ReadStartsOver(s, t);
    case WriteTry(_) => WriteStartsOver(s, t);
    case RelReadCas(_) => ReleaseStartsOver(s, t);
    case RelOwnCas(_) => ReleaseStartsOver(s, t);
    case ImplCas(_, _) => ImplStartsOver(s, t);
    case _ =>
  }

  // ----- A release undoes a try -----

  lemma ReadIsUndone(s: State, t: nat)
    requires Inv(s) && Ready(s, t) && ReadTried(s, t) != s
    ensures ReadReleased(ReadTried(s, t), t) == s
  {
    assert PcOk(s, t) && HoldsOk(s, t);
    assert s.threads[t := Thread(Idle, s.threads[t].readHolds, s.threads[t].writeHolds)] == s.threads;
  }

  lemma WriteIsUndone(s: State, t: nat)
    requires Inv(s) && Ready(s, t) && WriteTried(s, t) != s
    ensures WriteReleased(WriteTried(s, t), t) == s
  {
    assert PcOk(s, t) && HoldsOk(s, t);
    FreeWord(s);
    assert s.threads[t := Thread(Idle, s.threads[t].readHolds, s.threads[t].writeHolds)] == s.threads;
  }

  lemma {:induction false} FinishKeepsInv(s: State, t: nat, n: nat)
    requires Inv(s) && t < |s.threads|
    ensures Inv(Finish(s, t, n)) && |Finish(s, t, n).threads| == |s.threads|
    decreases n
  {
    if n > 0 && !s.threads[t].pc.Idle? && Enabled(s, t, Alone(s, t)) {
      StepKeepsInv(s, t, Alone(s, t));
      FinishKeepsInv(Next(s, t, Alone(s, t)), t, n - 1);
    }
  }

  /** A granted try and the matching release, each left alone, leave the lock exactly as it was. */
  lemma TryThenRelease(s: State, t: nat)
    requires Inv(s) && Ready(s, t) && s.word.readCount < COUNT_MAX && s.writeCount < COUNT_MAX
    ensures var r := Call(s, t, TryRead);
            r != s ==> |r.threads| == |s.threads| && Enabled(r, t, ReleaseRead) && Call(r, t, ReleaseRead) == s
    ensures var r := Call(s, t, TryWrite);
            r != s ==> |r.threads| == |s.threads| && Enabled(r, t, ReleaseWrite) && Call(r, t, ReleaseWrite) == s
  {
    assert HoldsOk(s, t);
    TryReadOutcome(s, t);
    TryWriteOutcome(s, t);
    StepKeepsInv(s, t, TryRead);
    FinishKeepsInv(Next(s, t, TryRead), t, 6);
    StepKeepsInv(s, t, TryWrite);
    FinishKeepsInv(Next(s, t, TryWrite), t, 6);
    if ReadTried(s, t) != s {
      ReleaseReadOutcome(ReadTried(s, t), t);
      ReadIsUndone(s, t);
    }
    if WriteTried(s, t) != s {
      ReleaseWriteOutcome(WriteTried(s, t), t);
      WriteIsUndone(s, t);
    }
  }
}
