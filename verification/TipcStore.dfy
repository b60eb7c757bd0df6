/** Where every open session is. The entries, the queued messages, the slabs and the kernel's
    session table always describe the same sessions: each open session is in exactly one place,
    and each used slab slot belongs to exactly one session. */
module TipcStore {
  import opened TipcTables
  import opened TipcModel

  /** What a thread holds on to between two accesses. */
  datatype Hold = Nothing | Carried(handle: int) | Built(handle: int, port: int, slot: int) | Shut(handle: int)

  function HoldOf(pc: Pc): Hold {
    match pc
    case Accepted(h) => Carried(h)
    case Select(h, _, _) => Carried(h)
    case Allocated(h, p, j) => Built(h, p, j)
    case CloseKernel(h) => Shut(h)
    case _ => Nothing
  }

  predicate Has(s: State, h: int, p: int, place: Place) { h in s.sessions && s.sessions[h] == Session(p, place) }

  predicate InSlab(s: State, p: int, j: int, h: int) {
    0 <= p < |s.slabs| && 0 <= j < |s.slabs[p]| && s.slabs[p][j] == h
  }

  predicate InEntry(s: State, m: int, i: int, h: int) {
    && 0 <= m < |s.managers| && |s.managers[m].box.handles| == |s.managers[m].box.objects|
    && 1 <= i < |s.managers[m].box.handles| && s.managers[m].box.handles[i] == h
  }

  predicate InQueue(s: State, m: int, q: int, h: int, p: int) {
    && 0 <= m < |s.managers|
    && var b := s.managers[m].box;
       b.received <= q < b.received + |b.inflight| && b.inflight[q - b.received] == Msg(h, p)
  }

  predicate HeldBy(s: State, t: int, hold: Hold) { 0 <= t < |s.managers| && HoldOf(s.managers[t].pc) == hold }

  /** A used entry: its session is live there, and its object is in the slab of the session's port. */
  predicate EntryOk(s: State, m: int, i: int) {
    0 <= m < |s.managers| && 1 <= i < |s.managers[m].box.handles| == |s.managers[m].box.objects| ==>
      var h := s.managers[m].box.handles[i];
      var o := s.managers[m].box.objects[i];
      h != INVALID_HANDLE ==> o.Object? && Has(s, h, o.port, Live(m, i)) && InSlab(s, o.port, o.slot, h)
  }

  predicate MsgOk(s: State, m: int, k: int) {
    0 <= m < |s.managers| && 0 <= k < |s.managers[m].box.inflight| ==>
      var b := s.managers[m].box;
      Has(s, b.inflight[k].handle, b.inflight[k].port, Queued(m, b.received + k))
  }

  /** A used slot: it belongs to a live session of that port, or to the message being entered. */
  predicate SlotOk(s: State, p: int, j: int) {
    0 <= p < |s.slabs| && 0 <= j < |s.slabs[p]| && s.slabs[p][j] != 0 ==>
      var h := s.slabs[p][j];
      && h in s.sessions && s.sessions[h].port == p
      && match s.sessions[h].place
         case Live(m, i) => InEntry(s, m, i, h) && s.managers[m].box.objects[i] == Object(p, j)
         case Queued(m, q) => 0 <= m < |s.managers| && q == s.managers[m].box.received && HeldBy(s, m, Built(h, p, j))
         case _ => false
  }

  predicate SessionOk(s: State, h: int) {
    h in s.sessions ==>
      var p := s.sessions[h].port;
      && |s.managers| < h < WORD_SHIFT && 0 <= p < |s.managers|
      && match s.sessions[h].place
         case InHand(t) => t == p && HeldBy(s, t, Carried(h))
         case Queued(m, q) => InQueue(s, m, q, h, p)
         case Live(m, i) => InEntry(s, m, i, h)
         case Closing(t) => HeldBy(s, t, Shut(h))
  }

  predicate HoldOk(s: State, t: int) {
    0 <= t < |s.managers| ==>
      match HoldOf(s.managers[t].pc)
      case Nothing => true
      case Carried(h) => Has(s, h, t, InHand(t))
      case Built(h, p, j) => h != 0 && InQueue(s, t, s.managers[t].box.received, h, p) && InSlab(s, p, j, h)
      case Shut(h) => h in s.sessions && s.sessions[h].place == Closing(t)
  }

  /** The kernel counts the open sessions of each port, and lets in no more than the port's maximum. */
  predicate PortOk(g: Config, s: State, p: int) {
    0 <= p < |s.counts| == |g.max| ==> s.counts[p] == |OpenOf(s.sessions, p)| && s.counts[p] <= g.max[p]
  }

  ghost predicate Store(g: Config, s: State) { Shape(g, s) && Tables(s) && Holders(g, s) }

  ghost predicate Tables(s: State) {
    && (forall m, i :: EntryOk(s, m, i))
    && (forall m, k :: MsgOk(s, m, k))
    && (forall p, j :: SlotOk(s, p, j))
  }

  ghost predicate Holders(g: Config, s: State) {
    && (forall h :: SessionOk(s, h))
    && (forall t :: HoldOk(s, t))
    && (forall p :: PortOk(g, s, p))
  }

  // ----- Open sessions of a port -----

  lemma OpenAdd(sessions: map<int, Session>, h: int, port: int, place: Place, p: int)
    ensures h !in sessions ==>
      OpenOf(sessions[h := Session(port, place)], p) == OpenOf(sessions, p) + (if p == port then {h} else {})
    ensures h in sessions && sessions[h].port == port ==>
      OpenOf(sessions[h := Session(port, place)], p) == OpenOf(sessions, p)
  {
  }

  lemma OpenRemove(sessions: map<int, Session>, h: int, p: int)
    requires h in sessions
    ensures OpenOf(sessions - {h}, p) == OpenOf(sessions, p) - (if p == sessions[h].port then {h} else {})
  {
  }

  // ----- The steps that move a session -----

  /** A step that touches none of it. */
  predicate SameStore(s: State, r: State) {
    && |r.managers| == |s.managers| && r.slabs == s.slabs && r.counts == s.counts && r.sessions == s.sessions
    && forall m | 0 <= m < |s.managers| ::
      r.managers[m].box == s.managers[m].box && HoldOf(r.managers[m].pc) == HoldOf(s.managers[m].pc)
  }

  lemma SameStoreKeeps(g: Config, s: State, r: State)
    requires Store(g, s) && SameStore(s, r)
    ensures Store(g, r)
  {
    forall m, i ensures EntryOk(r, m, i) { assert EntryOk(s, m, i); }
    forall m, k ensures MsgOk(r, m, k) { assert MsgOk(s, m, k); }
    forall p, j ensures SlotOk(r, p, j) { assert SlotOk(s, p, j); }
    forall h ensures SessionOk(r, h) { assert SessionOk(s, h); }
    forall t ensures HoldOk(r, t) { assert HoldOk(s, t); }
    forall p ensures PortOk(g, r, p) { assert PortOk(g, s, p); }
  }

  lemma AcceptKeepsTables(g: Config, s: State, t: int, h: int)
    requires Store(g, s) && 0 <= t < |s.managers| && HeldBy(s, t, Nothing)
    requires |s.managers| < h < WORD_SHIFT && h !in s.sessions && s.counts[t] < g.max[t]
    ensures Shape(g, Accepts(s, t, h)) && Tables(Accepts(s, t, h))
  {
    var r := Accepts(s, t, h);
    forall m, i ensures EntryOk(r, m, i) { assert EntryOk(s, m, i); }
    forall m, k ensures MsgOk(r, m, k) { assert MsgOk(s, m, k); }
    forall p, j ensures SlotOk(r, p, j) { assert SlotOk(s, p, j); }
  }

  lemma AcceptKeepsHolders(g: Config, s: State, t: int, h: int)
    requires Store(g, s) && 0 <= t < |s.managers| && HeldBy(s, t, Nothing)
    requires |s.managers| < h < WORD_SHIFT && h !in s.sessions && s.counts[t] < g.max[t]
    ensures Holders(g, Accepts(s, t, h))
  {
    var r := Accepts(s, t, h);
    forall x ensures SessionOk(r, x) { assert SessionOk(s, x); }
    forall u ensures HoldOk(r, u) { assert HoldOk(s, u); }
    forall p ensures PortOk(g, r, p) { assert PortOk(g, s, p); OpenAdd(s.sessions, h, t, InHand(t), p); }
  }

  lemma AcceptKeeps(g: Config, s: State, t: int, h: int)
    requires Store(g, s) && 0 <= t < |s.managers| && HeldBy(s, t, Nothing)
    requires |s.managers| < h < WORD_SHIFT && h !in s.sessions && s.counts[t] < g.max[t]
    ensures Store(g, Accepts(s, t, h))
  {
    AcceptKeepsTables(g, s, t, h);
    AcceptKeepsHolders(g, s, t, h);
  }

  lemma CountKeepsTables(g: Config, s: State, t: int, h: int, b: int)
    requires Store(g, s) && 0 <= t < |s.managers| && 0 <= b < |s.managers| && HeldBy(s, t, Carried(h))
    ensures Shape(g, Counts(s, t, h, b)) && Tables(Counts(s, t, h, b))
  {
    var r := Counts(s, t, h, b);
    var box := s.managers[b].box;
    assert HoldOk(s, t);
    assert forall u | 0 <= u < |s.managers| && u != b :: r.managers[u].box == s.managers[u].box;
    assert r.managers[b].box == box.(inflight := box.inflight + [Msg(h, t)]);
    assert forall u | 0 <= u < |s.managers| && u != t :: r.managers[u].pc == s.managers[u].pc;
    forall m, i ensures EntryOk(r, m, i) { assert EntryOk(s, m, i); }
    forall m, k ensures MsgOk(r, m, k) { assert MsgOk(s, m, k); }
    forall p, j ensures SlotOk(r, p, j) { assert SlotOk(s, p, j); }
  }

  lemma CountKeepsHolders(g: Config, s: State, t: int, h: int, b: int)
    requires Store(g, s) && 0 <= t < |s.managers| && 0 <= b < |s.managers| && HeldBy(s, t, Carried(h))
    ensures Holders(g, Counts(s, t, h, b))
  {
    var r := Counts(s, t, h, b);
    var box := s.managers[b].box;
    assert HoldOk(s, t);
    assert forall u | 0 <= u < |s.managers| && u != b :: r.managers[u].box == s.managers[u].box;
    assert r.managers[b].box == box.(inflight := box.inflight + [Msg(h, t)]);
    assert forall u | 0 <= u < |s.managers| && u != t :: r.managers[u].pc == s.managers[u].pc;
    forall x ensures SessionOk(r, x) { assert SessionOk(s, x); }
    forall u ensures HoldOk(r, u) { assert HoldOk(s, u); }
    forall p ensures PortOk(g, r, p) {
      assert PortOk(g, s, p);
      OpenAdd(s.sessions, h, t, r.sessions[h].place, p);
    }
  }

  lemma CountKeeps(g: Config, s: State, t: int, h: int, b: int)
    requires Store(g, s) && 0 <= t < |s.managers| && 0 <= b < |s.managers| && HeldBy(s, t, Carried(h))
    ensures Store(g, Counts(s, t, h, b))
  {
    CountKeepsTables(g, s, t, h, b);
    CountKeepsHolders(g, s, t, h, b);
  }

  lemma AllocateKeepsTables(g: Config, s: State, t: int, h: int, p: int)
    requires Store(g, s) && 0 <= t < |s.managers| && HeldBy(s, t, Nothing)
    requires InQueue(s, t, s.managers[t].box.received, h, p) && 0 <= p < |s.slabs| && 0 in s.slabs[p]
    ensures Tables(Allocates(s, t, h, p))
  {
    var r := Allocates(s, t, h, p);
    assert MsgOk(s, t, 0);
    forall m, i ensures EntryOk(r, m, i) { assert EntryOk(s, m, i); }
    forall m, k ensures MsgOk(r, m, k) { assert MsgOk(s, m, k); }
    forall q, j ensures SlotOk(r, q, j) { assert SlotOk(s, q, j); }
  }

  lemma AllocateKeeps(g: Config, s: State, t: int, h: int, p: int)
    requires Store(g, s) && 0 <= t < |s.managers| && HeldBy(s, t, Nothing)
    requires InQueue(s, t, s.managers[t].box.received, h, p) && 0 <= p < |s.slabs| && 0 in s.slabs[p]
    ensures Store(g, Allocates(s, t, h, p))
  {
    var r := Allocates(s, t, h, p);
    AllocateKeepsTables(g, s, t, h, p);
    assert MsgOk(s, t, 0) && SessionOk(s, h);
    forall x ensures SessionOk(r, x) { assert SessionOk(s, x); }
    forall u ensures HoldOk(r, u) { assert HoldOk(s, u); }
    forall q ensures PortOk(g, r, q) { assert PortOk(g, s, q); }
  }

  lemma EnterKeepsTables(g: Config, s: State, t: int, h: int, p: int, j: int)
    requires Store(g, s) && 0 <= t < |s.managers| && HeldBy(s, t, Built(h, p, j))
    requires INVALID_HANDLE in s.managers[t].box.handles && s.managers[t].box.inflight != []
    ensures Shape(g, Enters(s, t, h, p, j)) && Tables(Enters(s, t, h, p, j))
  {
    var r := Enters(s, t, h, p, j);
    assert HoldOk(s, t) && MsgOk(s, t, 0) && SessionOk(s, h) && BoxShape(g, t, s.managers[t].box);
    forall m, i ensures EntryOk(r, m, i) { assert EntryOk(s, m, i); }
    forall m, k ensures MsgOk(r, m, k) { assert MsgOk(s, m, k) && MsgOk(s, m, k + 1); }
    forall q, k ensures SlotOk(r, q, k) { assert SlotOk(s, q, k); }
  }

  lemma EnterKeepsHolders(g: Config, s: State, t: int, h: int, p: int, j: int)
    requires Store(g, s) && 0 <= t < |s.managers| && HeldBy(s, t, Built(h, p, j))
    requires INVALID_HANDLE in s.managers[t].box.handles && s.managers[t].box.inflight != []
    ensures Holders(g, Enters(s, t, h, p, j))
  {
    var r := Enters(s, t, h, p, j);
    assert HoldOk(s, t) && MsgOk(s, t, 0) && SessionOk(s, h) && BoxShape(g, t, s.managers[t].box);
    forall x ensures SessionOk(r, x) { assert SessionOk(s, x); }
    forall u ensures HoldOk(r, u) { assert HoldOk(s, u); }
    forall q ensures PortOk(g, r, q) {
      assert PortOk(g, s, q);
      OpenAdd(s.sessions, h, p, r.sessions[h].place, q);
    }
  }

  lemma EnterKeeps(g: Config, s: State, t: int, h: int, p: int, j: int)
    requires Store(g, s) && 0 <= t < |s.managers| && HeldBy(s, t, Built(h, p, j))
    requires INVALID_HANDLE in s.managers[t].box.handles && s.managers[t].box.inflight != []
    ensures Store(g, Enters(s, t, h, p, j))
  {
    EnterKeepsTables(g, s, t, h, p, j);
    EnterKeepsHolders(g, s, t, h, p, j);
  }

  /** The session a thread is about to close is live in one of its own entries, its slot is in use. */
  lemma CloseFinds(g: Config, s: State, t: int, h: int)
    requires Store(g, s) && 0 <= t < |s.managers|
    requires h in s.sessions && s.sessions[h].place.Live? && s.sessions[h].place.manager == t
    ensures var b := s.managers[t].box;
            var i := FindFirst(b.handles, h);
            && |b.handles| == |b.objects| && 1 <= i < |b.handles| && h in b.handles && h != INVALID_HANDLE
            && s.sessions[h].place == Live(t, i) && b.objects[i].Object? && b.objects[i].port == s.sessions[h].port
            && InSlab(s, b.objects[i].port, b.objects[i].slot, h)
  {
    assert SessionOk(s, h);
    var b := s.managers[t].box;
    var i := FindFirst(b.handles, h);
    assert BoxShape(g, t, b);
    assert b.handles[s.sessions[h].place.entry] == h;
    assert EntryOk(s, t, i);
  }

  lemma CloseKeepsTables(g: Config, s: State, t: int, h: int)
    requires Store(g, s) && 0 <= t < |s.managers| && HeldBy(s, t, Nothing)
    requires h in s.sessions && s.sessions[h].place.Live? && s.sessions[h].place.manager == t
    requires var b := s.managers[t].box;
             && |b.handles| == |b.objects| && h in b.handles
             && var o := b.objects[FindFirst(b.handles, h)];
                o.Object? && 0 <= o.port < |s.slabs| && 0 <= o.slot < |s.slabs[o.port]|
    ensures Shape(g, Closes(s, t, h)) && Tables(Closes(s, t, h))
  {
    var r := Closes(s, t, h);
    CloseFinds(g, s, t, h);
    assert SessionOk(s, h);
    var o := s.managers[t].box.objects[FindFirst(s.managers[t].box.handles, h)];
    forall m, i ensures EntryOk(r, m, i) { assert EntryOk(s, m, i); }
    forall m, k ensures MsgOk(r, m, k) { assert MsgOk(s, m, k); }
    forall p, j ensures SlotOk(r, p, j) { assert SlotOk(s, p, j); }
  }

  lemma CloseKeepsHolders(g: Config, s: State, t: int, h: int)
    requires Store(g, s) && 0 <= t < |s.managers| && HeldBy(s, t, Nothing)
    requires h in s.sessions && s.sessions[h].place.Live? && s.sessions[h].place.manager == t
    requires var b := s.managers[t].box;
             && |b.handles| == |b.objects| && h in b.handles
             && var o := b.objects[FindFirst(b.handles, h)];
                o.Object? && 0 <= o.port < |s.slabs| && 0 <= o.slot < |s.slabs[o.port]|
    ensures Holders(g, Closes(s, t, h))
  {
    var r := Closes(s, t, h);
    CloseFinds(g, s, t, h);
    assert SessionOk(s, h);
    var o := s.managers[t].box.objects[FindFirst(s.managers[t].box.handles, h)];
    forall x ensures SessionOk(r, x) { assert SessionOk(s, x); }
    forall u ensures HoldOk(r, u) { assert HoldOk(s, u) && MsgOk(s, u, 0); }
    forall p ensures PortOk(g, r, p) {
      assert PortOk(g, s, p);
      OpenAdd(s.sessions, h, o.port, Closing(t), p);
    }
  }

  lemma CloseKeeps(g: Config, s: State, t: int, h: int)
    requires Store(g, s) && 0 <= t < |s.managers| && HeldBy(s, t, Nothing)
    requires h in s.sessions && s.sessions[h].place.Live? && s.sessions[h].place.manager == t
    requires var b := s.managers[t].box;
             && |b.handles| == |b.objects| && h in b.handles
             && var o := b.objects[FindFirst(b.handles, h)];
                o.Object? && 0 <= o.port < |s.slabs| && 0 <= o.slot < |s.slabs[o.port]|
    ensures Store(g, Closes(s, t, h))
  {
    CloseKeepsTables(g, s, t, h);
    CloseKeepsHolders(g, s, t, h);
  }

  lemma CloseInKernelKeeps(g: Config, s: State, t: int, h: int)
    requires Store(g, s) && 0 <= t < |s.managers| && HeldBy(s, t, Shut(h))
    requires h in s.sessions && 0 <= s.sessions[h].port < |s.counts|
    ensures Store(g, ClosesInKernel(s, t, h))
  {
    var r := ClosesInKernel(s, t, h);
    assert HoldOk(s, t);
    forall m, i ensures EntryOk(r, m, i) { assert EntryOk(s, m, i); }
    forall m, k ensures MsgOk(r, m, k) { assert MsgOk(s, m, k); }
    forall p, j ensures SlotOk(r, p, j) { assert SlotOk(s, p, j); }
    forall x ensures SessionOk(r, x) { assert SessionOk(s, x); }
    forall u ensures HoldOk(r, u) { assert HoldOk(s, u); }
    forall p ensures PortOk(g, r, p) {
      assert PortOk(g, s, p);
      OpenRemove(s.sessions, h, p);
    }
  }

  // ----- The slab always has room -----

  lemma {:induction false} DistinctFit(xs: seq<int>, all: set<int>)
    requires forall i | 0 <= i < |xs| :: xs[i] in all
    requires forall i, j | 0 <= i < j < |xs| :: xs[i] != xs[j]
    ensures |xs| <= |all|
  {
    if xs != [] { DistinctFit(xs[..|xs| - 1], all - {xs[|xs| - 1]}); }
  }

  lemma SlotsDistinct(s: State, p: int, i: int, j: int)
    requires SlotOk(s, p, i) && SlotOk(s, p, j)
    requires 0 <= p < |s.slabs| && 0 <= i < |s.slabs[p]| && 0 <= j < |s.slabs[p]| && i != j && s.slabs[p][i] != 0
    ensures s.slabs[p][i] != s.slabs[p][j]
  {
  }

  /** `AllocateObject` never returns null: a full slab and the message in hand would be more open
      sessions of the port than the kernel lets in. */
  lemma SlabHasRoom(g: Config, s: State, t: int, h: int, p: int)
    requires Store(g, s) && 0 <= t < |s.managers| && HeldBy(s, t, Nothing)
    requires InQueue(s, t, s.managers[t].box.received, h, p) && 0 <= p < |s.slabs|
    ensures 0 in s.slabs[p]
  {
    if 0 !in s.slabs[p] {
      assert MsgOk(s, t, 0);
      var xs := s.slabs[p];
      forall j | 0 <= j < |xs| ensures xs[j] in OpenOf(s.sessions, p) - {h} {
        assert SlotOk(s, p, j);
      }
      forall i, j | 0 <= i < j < |xs| ensures xs[i] != xs[j] {
        assert SlotOk(s, p, i) && SlotOk(s, p, j);
        SlotsDistinct(s, p, i, j);
      }
      assert PortOk(g, s, p) && h in OpenOf(s.sessions, p);
      DistinctFit(xs, OpenOf(s.sessions, p) - {h});
    }
  }
}
