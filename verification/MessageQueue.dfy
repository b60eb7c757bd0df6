/** The ring buffer under the message queues: a bounded double-ended sequence of words. The
    blocking operations wait while the queue is full or empty and then run the same bodies under
    the queue's critical section, so every interleaving is a sequence of the calls below. */
module MessageQueue {

  newtype s32 = x: int | -0x8000_0000 <= x < 0x8000_0000

  const CAPACITY_MAX: int := 0x4000_0000

  // ----- The queued part of the buffer -----

  /** The `n` words from index `o` on, around the end of the buffer. */
  function Window(b: seq<int>, o: int, n: int): (w: seq<int>)
    requires 0 <= o < |b| && 0 <= n <= |b|
    ensures |w| == n
  {
    if o + n <= |b| then b[o..o + n] else b[o..] + b[..o + n - |b|]
  }

  function Wrap(b: seq<int>, i: int): int { if i >= |b| then i - |b| else i }

  lemma WindowAt(b: seq<int>, o: int, n: int, k: int)
    requires 0 <= o < |b| && 0 <= k < n <= |b|
    ensures Window(b, o, n)[k] == b[Wrap(b, o + k)]
  {
  }

  lemma PushBack(b: seq<int>, o: int, n: int, data: int)
    requires 0 <= o < |b| && 0 <= n < |b|
    ensures Window(b[Wrap(b, o + n) := data], o, n + 1) == Window(b, o, n) + [data]
  {
    var c := b[Wrap(b, o + n) := data];
    forall k | 0 <= k < n + 1 ensures Window(c, o, n + 1)[k] == (Window(b, o, n) + [data])[k] {
      WindowAt(c, o, n + 1, k);
      if k < n { WindowAt(b, o, n, k); }
    }
  }

  lemma PushFront(b: seq<int>, o: int, n: int, data: int)
    requires 0 <= o < |b| && 0 <= n < |b|
    ensures var p := if o == 0 then |b| - 1 else o - 1;
            Window(b[p := data], p, n + 1) == [data] + Window(b, o, n)
  {
    var p := if o == 0 then |b| - 1 else o - 1;
    var c := b[p := data];
    forall k | 0 <= k < n + 1 ensures Window(c, p, n + 1)[k] == ([data] + Window(b, o, n))[k] {
      WindowAt(c, p, n + 1, k);
      if k > 0 { WindowAt(b, o, n, k - 1); }
    }
  }

  lemma PopFront(b: seq<int>, o: int, n: int)
    requires 0 <= o < |b| && 0 < n <= |b|
    ensures Window(b, o, n) == [b[o]] + Window(b, Wrap(b, o + 1), n - 1)
  {
    forall k | 0 <= k < n ensures Window(b, o, n)[k] == ([b[o]] + Window(b, Wrap(b, o + 1), n - 1))[k] {
      WindowAt(b, o, n, k);
      if k > 0 { WindowAt(b, Wrap(b, o + 1), n - 1, k - 1); }
    }
  }

  // ----- The queue -----

  class Queue {
    const buffer: array<int>
    const capacity: s32
    var count: s32
    var offset: s32

    ghost predicate Valid()
      reads this, buffer
    {
      && buffer.Length == capacity as int && 1 <= capacity as int <= CAPACITY_MAX
      && 0 <= count <= capacity && 0 <= offset < capacity
    }

    /** The queued words, first to be received first. */
    ghost function Contents(): (s: seq<int>)
      requires Valid()
      reads this, buffer
      ensures |s| == count as int
    {
      Window(buffer[..], offset as int, count as int)
    }

    /** `InitializeMessageQueue`. */
    constructor (buffer: array<int>)
      requires 1 <= buffer.Length <= CAPACITY_MAX
      ensures Valid() && this.buffer == buffer && Contents() == []
    {
      this.buffer := buffer;
      capacity := buffer.Length as s32;
      count, offset := 0, 0;
    }

    predicate Full()
      reads this
    {
      count >= capacity
    }

    predicate Empty()
      reads this
    {
      count == 0
    }

    method SendUnsafe(data: int)
      requires Valid() && !Full()
      modifies this`count, buffer
      ensures Valid() && Contents() == old(Contents()) + [data]
    {
      var ind := offset + count;
      if ind >= capacity {
        ind := ind - capacity;
      }
      PushBack(buffer[..], offset as int, count as int, data);
      ghost var before := buffer[..];
      buffer[ind] := data;
      assert buffer[..] == before[ind as int := data];
      count := count + 1;
    }

    method SendNextUnsafe(data: int)
      requires Valid() && !Full()
      modifies this, buffer
      ensures Valid() && Contents() == [data] + old(Contents())
    {
      var newOffset := offset - 1;
      if newOffset < 0 {
        newOffset := newOffset + capacity;
      }
      PushFront(buffer[..], offset as int, count as int, data);
      ghost var before := buffer[..];
      buffer[newOffset] := data;
      assert buffer[..] == before[newOffset as int := data];
      offset := newOffset;
      count := count + 1;
    }

    method ReceiveUnsafe() returns (data: int)
      requires Valid() && !Empty()
      modifies this`count, this`offset
      ensures Valid() && old(Contents()) == [data] + Contents()
    {
      PopFront(buffer[..], offset as int, count as int);
      data := buffer[offset];
      var newOffset := offset + 1;
      if newOffset >= capacity {
        newOffset := newOffset - capacity;
      }
      offset := newOffset;
      count := count - 1;
    }

    method PeekUnsafe() returns (data: int)
      requires Valid() && !Empty()
      ensures data == Contents()[0]
    {
      WindowAt(buffer[..], offset as int, count as int, 0);
      data := buffer[offset];
    }

    method TrySend(data: int) returns (ok: bool)
      requires Valid()
      modifies this`count, buffer
      ensures Valid() && ok == (|old(Contents())| < capacity as int)
      ensures Contents() == if ok then old(Contents()) + [data] else old(Contents())
    {
      if Full() {
        return false;
      }
      SendUnsafe(data);
      return true;
    }

    method TrySendNext(data: int) returns (ok: bool)
      requires Valid()
      modifies this, buffer
      ensures Valid() && ok == (|old(Contents())| < capacity as int)
      ensures Contents() == if ok then [data] + old(Contents()) else old(Contents())
    {
      if Full() {
        return false;
      }
      SendNextUnsafe(data);
      return true;
    }

    method TryReceive() returns (ok: bool, data: int)
      requires Valid()
      modifies this`count, this`offset
      ensures Valid() && ok == (old(Contents()) != [])
      ensures old(Contents()) == if ok then [data] + Contents() else Contents()
    {
      if Empty() {
        return false, 0;
      }
      data := ReceiveUnsafe();
      ok := true;
    }

    method TryPeek() returns (ok: bool, data: int)
      requires Valid()
      ensures ok == (Contents() != []) && (ok ==> data == Contents()[0])
    {
      if Empty() {
        return false, 0;
      }
      data := PeekUnsafe();
      ok := true;
    }
  }

  /** `offset + count`, both below the capacity, fits 32 signed bits for every state of the queue
      exactly when the capacity is at most 2^30. */
  lemma SumsFitIff(capacity: int)
    requires capacity >= 1
    ensures (forall o, c | 0 <= o < capacity && 0 <= c < capacity :: Fits(o, c)) <==> capacity <= CAPACITY_MAX
  {
    assert Fits(capacity - 1, capacity - 1) <==> capacity <= CAPACITY_MAX;
  }

  predicate Fits(o: int, c: int) { o + c < 0x8000_0000 }
}
