/** The packed half of the reader-writer lock word: a 15-bit read count, the write-locked bit and
    two 8-bit waiter counts in one 32-bit word, edited field by field with masks and shifts. */
module RwLockCounter {

  datatype Fields = Fields(readCount: bv32, writeLocked: bv32, readWaiters: bv32, writeWaiters: bv32)

  function GetReadLockCount(c: bv32): bv32 { c & 0x7FFF }
  function GetWriteLocked(c: bv32): bv32 { (c & 0x8000) >> 15 }
  function GetReadLockWaiterCount(c: bv32): bv32 { (c & 0xFF0000) >> 16 }
  function GetWriteLockWaiterCount(c: bv32): bv32 { (c & 0xFF000000) >> 24 }

  function SetReadLockCount(c: bv32, n: bv32): bv32 { (c & !0x7FFF) | (n & 0x7FFF) }
  function SetWriteLocked(c: bv32, n: bv32): bv32 { (c & !0x8000) | ((n << 15) & 0x8000) }
  function SetReadLockWaiterCount(c: bv32, n: bv32): bv32 { (c & !0xFF0000) | ((n << 16) & 0xFF0000) }
  function SetWriteLockWaiterCount(c: bv32, n: bv32): bv32 { (c & !0xFF000000) | ((n << 24) & 0xFF000000) }

  function Decode(c: bv32): Fields {
    Fields(GetReadLockCount(c), GetWriteLocked(c), GetReadLockWaiterCount(c), GetWriteLockWaiterCount(c))
  }

  lemma SetReadMeaning(c: bv32, n: bv32)
    ensures GetReadLockCount(SetReadLockCount(c, n)) == n & 0x7FFF
    ensures GetWriteLocked(SetReadLockCount(c, n)) == GetWriteLocked(c)
    ensures GetReadLockWaiterCount(SetReadLockCount(c, n)) == GetReadLockWaiterCount(c)
    ensures GetWriteLockWaiterCount(SetReadLockCount(c, n)) == GetWriteLockWaiterCount(c)
  {
  }

  lemma SetLockedMeaning(c: bv32, n: bv32)
    ensures GetReadLockCount(SetWriteLocked(c, n)) == GetReadLockCount(c)
    ensures GetWriteLocked(SetWriteLocked(c, n)) == n & 1
    ensures GetReadLockWaiterCount(SetWriteLocked(c, n)) == GetReadLockWaiterCount(c)
    ensures GetWriteLockWaiterCount(SetWriteLocked(c, n)) == GetWriteLockWaiterCount(c)
  {
  }

  lemma SetReadWaitersMeaning(c: bv32, n: bv32)
    ensures GetReadLockCount(SetReadLockWaiterCount(c, n)) == GetReadLockCount(c)
    ensures GetWriteLocked(SetReadLockWaiterCount(c, n)) == GetWriteLocked(c)
    ensures GetReadLockWaiterCount(SetReadLockWaiterCount(c, n)) == n & 0xFF
    ensures GetWriteLockWaiterCount(SetReadLockWaiterCount(c, n)) == GetWriteLockWaiterCount(c)
  {
  }

  lemma SetWriteWaitersMeaning(c: bv32, n: bv32)
    ensures GetReadLockCount(SetWriteLockWaiterCount(c, n)) == GetReadLockCount(c)
    ensures GetWriteLocked(SetWriteLockWaiterCount(c, n)) == GetWriteLocked(c)
    ensures GetReadLockWaiterCount(SetWriteLockWaiterCount(c, n)) == GetReadLockWaiterCount(c)
    ensures GetWriteLockWaiterCount(SetWriteLockWaiterCount(c, n)) == n & 0xFF
  {
  }

  lemma Masked(n: bv32)
    ensures n <= 0x7FFF ==> n & 0x7FFF == n
    ensures n == 0x8000 ==> n & 0x7FFF == 0
  {
  }

  /** Storing a read count touches the read count alone; a count past the bound wraps to zero
      rather than spill into the locked bit. */
  lemma StoreReadCount(c: bv32, n: bv32)
    requires n <= 0x8000
    ensures Decode(SetReadLockCount(c, n)) == Decode(c).(readCount := if n == 0x8000 then 0 else n)
  {
    SetReadMeaning(c, n);
    Masked(n);
  }

  lemma Parts(c: bv32)
    ensures c == GetReadLockCount(c) | (GetWriteLocked(c) << 15)
                 | (GetReadLockWaiterCount(c) << 16) | (GetWriteLockWaiterCount(c) << 24)
  {
  }

  /** The word is nothing but its four fields, so comparing words compares the fields. */
  lemma DecodeIsInjective(c: bv32, d: bv32)
    requires Decode(c) == Decode(d)
    ensures c == d
  {
    Parts(c);
    Parts(d);
  }
}
