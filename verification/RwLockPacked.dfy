/** The lock word as the machine of `RwLock` sees it: the packed counter of `RwLockCounter`, read field
    by field. The code's edits of the packed counter are the machine's edits of the word. */
module RwLockPacked {
  import opened BitValue
  import opened RwLockCounter
  import opened RwLock

  function Unpack(c: bv32, handle: int): Word {
    Word(handle, Value(GetReadLockCount(c), 0x7FFF), GetWriteLocked(c) != 0,
         Value(GetReadLockWaiterCount(c), 0xFF), Value(GetWriteLockWaiterCount(c), 0xFF))
  }

  lemma FieldsFit(c: bv32)
    ensures Within(GetReadLockCount(c), 0x7FFF) && (GetWriteLocked(c) == 0 || GetWriteLocked(c) == 1)
    ensures Within(GetReadLockWaiterCount(c), 0xFF) && Within(GetWriteLockWaiterCount(c), 0xFF)
    ensures IsMask(0x7FFF) && IsMask(0xFF)
  {
  }

  lemma FullCount()
    ensures Value(0x7FFF, 0x7FFF) == COUNT_MAX && Value(0, 0x7FFF) == 0
  {
    assert Value(0x1, 0x1) == 0x1;
    assert Value(0x3, 0x3) == 0x3;
    assert Value(0x7, 0x7) == 0x7;
    assert Value(0xF, 0xF) == 0xF;
    assert Value(0x1F, 0x1F) == 0x1F;
    assert Value(0x3F, 0x3F) == 0x3F;
    assert Value(0x7F, 0x7F) == 0x7F;
    assert Value(0xFF, 0xFF) == 0xFF;
    assert Value(0x1FF, 0x1FF) == 0x1FF;
    assert Value(0x3FF, 0x3FF) == 0x3FF;
    assert Value(0x7FF, 0x7FF) == 0x7FF;
    assert Value(0xFFF, 0xFFF) == 0xFFF;
    assert Value(0x1FFF, 0x1FFF) == 0x1FFF;
    assert Value(0x3FFF, 0x3FFF) == 0x3FFF;
    assert Value(0x7FFF, 0x7FFF) == 0x7FFF;
    NothingIsZero(0x7FFF);
  }

  lemma {:induction false} NothingIsZero(m: bv32)
    ensures Value(0, m) == 0
    decreases m
  {
    if m != 0 { NothingIsZero(m >> 1); }
  }

  /** The bound the code asserts is the bound of the field. */
  lemma CountBelowMax(n: bv32)
    requires Within(n, 0x7FFF)
    ensures Value(n, 0x7FFF) < COUNT_MAX <==> n != 0x7FFF
    ensures Value(n, 0x7FFF) > 0 <==> n != 0
  {
    FullCount();
    ValueAtMost(n, 0x7FFF);
    if Value(n, 0x7FFF) == COUNT_MAX { ValueIsInjective(n, 0x7FFF, 0x7FFF); }
    if Value(n, 0x7FFF) == 0 { ValueIsInjective(n, 0, 0x7FFF); }
  }

  lemma StoredCount(c: bv32, n: bv32, handle: int)
    requires Within(n, 0x7FFF)
    ensures Unpack(SetReadLockCount(c, n), handle) == Unpack(c, handle).(readCount := Value(n, 0x7FFF))
  {
    SetReadMeaning(c, n);
  }

  lemma NextCount(n: bv32)
    requires Within(n, 0x7FFF) && n != 0x7FFF
    ensures Within(n + 1, 0x7FFF) && Value(n + 1, 0x7FFF) == Value(n, 0x7FFF) + 1
  {
    ValueIncrement(n, 0x7FFF);
  }

  lemma PreviousCount(n: bv32)
    requires Within(n, 0x7FFF) && n != 0
    ensures Within(n - 1, 0x7FFF) && n - 1 != 0x7FFF && n - 1 + 1 == n
  {
  }

  lemma StoredIncrement(c: bv32, n: bv32, handle: int)
    requires Within(n, 0x7FFF) && Value(n, 0x7FFF) < COUNT_MAX
    ensures Unpack(SetReadLockCount(c, n + 1), handle) == Unpack(c, handle).(readCount := Value(n, 0x7FFF) + 1)
  {
    CountBelowMax(n);
    NextCount(n);
    StoredCount(c, n + 1, handle);
  }

  lemma StoredDecrement(c: bv32, n: bv32, handle: int)
    requires Within(n, 0x7FFF) && Value(n, 0x7FFF) > 0
    ensures Unpack(SetReadLockCount(c, n - 1), handle) == Unpack(c, handle).(readCount := Value(n, 0x7FFF) - 1)
  {
    CountBelowMax(n);
    PreviousCount(n);
    NextCount(n - 1);
    StoredCount(c, n - 1, handle);
  }

  lemma ReadCountOf(c: bv32, handle: int)
    ensures Within(GetReadLockCount(c), 0x7FFF) && Unpack(c, handle).readCount == Value(GetReadLockCount(c), 0x7FFF)
  {
  }

  /** `IncReadLockCount`, under its assertion. */
  lemma IncrementIsIncRead(c: bv32, handle: int)
    requires Unpack(c, handle).readCount < COUNT_MAX
    ensures Unpack(SetReadLockCount(c, GetReadLockCount(c) + 1), handle) == IncRead(Unpack(c, handle))
  {
    ReadCountOf(c, handle);
    StoredIncrement(c, GetReadLockCount(c), handle);
  }

  /** `DecReadLockCount`, under its assertion. */
  lemma DecrementIsDecRead(c: bv32, handle: int)
    requires Unpack(c, handle).readCount > 0
    ensures Unpack(SetReadLockCount(c, GetReadLockCount(c) - 1), handle) == DecRead(Unpack(c, handle))
  {
    ReadCountOf(c, handle);
    StoredDecrement(c, GetReadLockCount(c), handle);
  }

  /** `SetWriteLocked` and `ClearWriteLocked`, with the handle stored beside them. */
  lemma LockBitIsWriteLocked(c: bv32, handle: int, owner: int)
    ensures Unpack(SetWriteLocked(c, 1), owner) == LockedBy(Unpack(c, handle), owner)
    ensures Unpack(SetWriteLocked(c, 0), if HasWaitBit(handle) then handle else 0) == Cleared(Unpack(c, handle))
  {
    SetLockedMeaning(c, 1);
    SetLockedMeaning(c, 0);
  }

  /** The compare-exchange compares packed words; it succeeds exactly when the machine's words agree. */
  lemma PackedWordsAgree(c: bv32, handle: int, d: bv32, other: int)
    ensures c == d && handle == other <==> Unpack(c, handle) == Unpack(d, other)
  {
    if Unpack(c, handle) == Unpack(d, other) {
      FieldsFit(c);
      FieldsFit(d);
      ValueIsInjective(GetReadLockCount(c), GetReadLockCount(d), 0x7FFF);
      ValueIsInjective(GetReadLockWaiterCount(c), GetReadLockWaiterCount(d), 0xFF);
      ValueIsInjective(GetWriteLockWaiterCount(c), GetWriteLockWaiterCount(d), 0xFF);
      DecodeIsInjective(c, d);
    }
  }
}
