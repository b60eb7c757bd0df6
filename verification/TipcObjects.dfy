/** The tables a session goes through: the slab its service object is taken from, the waitable
    object that pairs it with the session handle, and the entries of a port manager. */
module TipcTables {

  /** The first index of `x`, or the length when there is none. */
  function FindFirst<T(==)>(s: seq<T>, x: T): (k: nat)
    ensures k <= |s| && (k < |s| ==> s[k] == x)
    ensures forall j | 0 <= j < k :: s[j] != x
  {
    if s == [] || s[0] == x then 0 else 1 + FindFirst(s[1..], x)
  }

  lemma FirstIs<T>(s: seq<T>, x: T, k: nat)
    requires k <= |s| && (k < |s| ==> s[k] == x)
    requires forall j | 0 <= j < k :: s[j] != x
    ensures k == FindFirst(s, x)
  {
  }

  const INVALID_HANDLE := 0
}

module TipcObjects {
  import opened TipcTables

  // ----- SlabAllocator -----

  class SlabAllocator {
    const used: array<bool>

    constructor (n: nat)
      ensures fresh(used) && used.Length == n && forall i | 0 <= i < n :: !used[i]
    {
      used := new bool[n](_ => false);
    }

    /** The first unused slot, or nothing when all are used. */
    method Allocate() returns (ok: bool, slot: nat)
      modifies used
      ensures ok == (false in old(used[..]))
      ensures ok ==> slot == FindFirst(old(used[..]), false) && slot < used.Length
      ensures used[..] == if ok then old(used[..])[slot := true] else old(used[..])
    {
      var i := 0;
      while i < used.Length
        invariant 0 <= i <= used.Length && used[..] == old(used[..])
        invariant forall j | 0 <= j < i :: used[j]
      {
        if !used[i] {
          used[i] := true;
          return true, i;
        }
        i := i + 1;
      }
      return false, 0;
    }

    /** Frees the slot of `service`; fails when that slot is not in use. */
    method Deallocate(service: nat) returns (ok: bool)
      modifies used
      ensures ok == (service < used.Length && old(used[..])[service])
      ensures used[..] == if ok then old(used[..])[service := false] else old(used[..])
    {
      var i := 0;
      while i < used.Length
        invariant 0 <= i <= used.Length && used[..] == old(used[..])
        invariant service < i ==> !used[service]
      {
        if used[i] && i == service {
          used[i] := false;
          return true;
        }
        i := i + 1;
      }
      return false;
    }
  }

  // ----- WaitableObject -----

  datatype Kind = Invalid | Port | Session

  /** A service object: the slab it came from, if it has a deleter, and its slot there. */
  datatype ServiceObject = NoObject | Object(deleter: SlabAllocator?, slot: nat)

  datatype Waitable = Waitable(handle: int, kind: Kind, managed: bool, service: ServiceObject)

  const EMPTY := Waitable(INVALID_HANDLE, Invalid, false, NoObject)

  class WaitableObject {
    var handle: int
    var kind: Kind
    var managed: bool
    var service: ServiceObject

    ghost function Value(): Waitable
      reads this
    {
      Waitable(handle, kind, managed, service)
    }

    constructor ()
      ensures Value() == EMPTY
    {
      handle, kind, managed, service := INVALID_HANDLE, Invalid, false, NoObject;
    }

    method InitializeImpl(kind: Kind, handle: int, managed: bool, service: ServiceObject)
      requires this.kind == Invalid
      modifies this
      ensures Value() == Waitable(handle, kind, managed, service)
    {
      this.handle, this.kind, this.managed, this.service := handle, kind, managed, service;
    }

    method InitializeAsPort(handle: int)
      requires kind == Invalid
      modifies this
      ensures Value() == Waitable(handle, Port, false, NoObject)
    {
      InitializeImpl(Port, handle, false, NoObject);
    }

    method InitializeAsSession(handle: int, managed: bool, service: ServiceObject)
      requires kind == Invalid
      modifies this
      ensures Value() == Waitable(handle, Session, managed, service)
    {
      InitializeImpl(Session, handle, managed, service);
    }

    /** The slab this object gives its slot back to when it is destroyed. */
    ghost function Slab(): SlabAllocator?
      reads this
    {
      if managed && service.Object? then service.deleter else null
    }

    ghost function SlabFrame(): set<object>
      reads this
    {
      if Slab() == null then {} else {Slab().used}
    }

    method CopyFrom(other: WaitableObject)
      modifies this
      ensures Value() == old(other.Value())
    {
      handle, kind, managed, service := other.handle, other.kind, other.managed, other.service;
    }

    /** Gives a managed object's slot back and resets every field; fails when the slot was not in use. */
    method Destroy() returns (ok: bool)
      requires kind != Invalid && (managed ==> service.Object?)
      modifies this, SlabFrame()
      ensures Value() == EMPTY
      ensures var slab := old(Slab());
              if slab == null then ok
              else
                && ok == (old(service.slot) < slab.used.Length && old(slab.used[..])[old(service.slot)])
                && slab.used[..] == if ok then old(slab.used[..])[old(service.slot) := false] else old(slab.used[..])
    {
      ok := true;
      if managed {
        if service.deleter != null {
          ok := service.deleter.Deallocate(service.slot);
        }
      }
      handle, kind, managed, service := INVALID_HANDLE, Invalid, false, NoObject;
    }
  }

  // ----- ObjectManager -----

  class ObjectManager {
    const entries: array<WaitableObject>

    ghost predicate Valid()
      reads this, entries
    {
      forall i, j | 0 <= i < j < entries.Length :: entries[i] != entries[j]
    }

    ghost function Values(): (v: seq<Waitable>)
      reads this, entries, entries[..]
      ensures |v| == entries.Length
    {
      seq(entries.Length, i requires 0 <= i < entries.Length reads this, entries, entries[..] => entries[i].Value())
    }

    ghost function Handles(): (h: seq<int>)
      reads this, entries, entries[..]
      ensures |h| == entries.Length
    {
      seq(entries.Length, i requires 0 <= i < entries.Length reads this, entries, entries[..] => entries[i].handle)
    }

    /** All entries start out empty. */
    constructor (maxObjects: nat)
      ensures Valid() && entries.Length == maxObjects
      ensures fresh(entries) && forall e | e in entries[..] :: fresh(e)
      ensures forall v | v in Values() :: v == EMPTY
    {
      var filler := new WaitableObject();
      entries := new WaitableObject[maxObjects](_ => filler);
      new;
      var i := 0;
      while i < maxObjects
        invariant 0 <= i <= maxObjects && fresh(entries) && entries.Length == maxObjects
        invariant forall j | 0 <= j < i :: fresh(entries[j]) && entries[j].Value() == EMPTY
        invariant forall j | i <= j < maxObjects :: entries[j] == filler
        invariant forall j | 0 <= j < i :: entries[j] != filler
        invariant forall j, k | 0 <= j < k < i :: entries[j] != entries[k]
      {
        var o := new WaitableObject();
        entries[i] := o;
        i := i + 1;
      }
    }

    method FindEntry(handle: int) returns (k: nat)
      requires Valid()
      ensures k == FindFirst(Handles(), handle)
    {
      k := 0;
      while k < entries.Length
        invariant 0 <= k <= entries.Length
        invariant forall j | 0 <= j < k :: entries[j].handle != handle
      {
        if entries[k].handle == handle {
          FirstIs(Handles(), handle, k);
          return;
        }
        k := k + 1;
      }
      FirstIs(Handles(), handle, k);
    }

    /** Copies `item` to the first empty entry; fails when there is none. */
    method AddObject(item: WaitableObject) returns (ok: bool)
      requires Valid() && item !in entries[..]
      modifies entries[..]
      ensures Valid() && ok == (INVALID_HANDLE in old(Handles()))
      ensures Values() ==
              if ok then old(Values())[FindFirst(old(Handles()), INVALID_HANDLE) := item.Value()] else old(Values())
    {
      var k := FindEntry(INVALID_HANDLE);
      ok := k < entries.Length;
      if ok {
        entries[k].CopyFrom(item);
      }
    }

    /** Destroys the first entry with `handle`; fails when there is none. */
    method CloseObject(handle: int) returns (ok: bool)
      requires Valid() && handle != INVALID_HANDLE
      requires forall e | e in entries[..] && e.handle == handle ::
                 e.kind != Invalid && (e.managed ==> e.service.Object?)
      modifies entries[..], set e, o | e in entries[..] && o in e.SlabFrame() :: o
      ensures Valid()
      ensures handle !in old(Handles()) ==> !ok && Values() == old(Values())
      ensures handle in old(Handles()) ==>
                var k := FindFirst(old(Handles()), handle);
                && Values() == old(Values())[k := EMPTY]
                && var slab := old(entries[k].Slab());
                   if slab == null then ok
                   else
                     var slot := old(entries[k].service.slot);
                     && ok == (slot < slab.used.Length && old(slab.used[..])[slot])
                     && slab.used[..] == if ok then old(slab.used[..])[slot := false] else old(slab.used[..])
    {
      var k := FindEntry(handle);
      if k == entries.Length {
        return false;
      }
      ok := entries[k].Destroy();
    }
  }
}
