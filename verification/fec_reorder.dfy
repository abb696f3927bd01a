/** The reorder ring once parity packets are in use: delivered packets stay in their slots for recovery. */
module FecReorder {

  import opened Sequences
  import opened ReorderModel
  import Handoff

  /** The slots, each with a packet under its own number, delivered already or not. */
  datatype Ring = Ring(size: nat, base: int, count: Seq16, slots: map<nat, Delivery>)

  /** A packet handed over where number `place` was due. */
  datatype Handed = Handed(place: int, packet: Delivery)

  datatype Handing = Handing(ring: Ring, handed: seq<Handed>, lost: nat)

  /** Every packet stands in the slot of its number, and none lies beyond the window. */
  ghost predicate Placed(r: Ring) {
    ValidSize(r.size) &&
    forall i :: i in r.slots ==> Slot(r.slots[i].number, r.size) == i && r.slots[i].number < r.base + r.size
  }

  /** The slot of a number holds a packet of another number. */
  predicate Stale(r: Ring, n: int)
    requires ValidSize(r.size)
  {
    Slot(n, r.size) in r.slots && r.slots[Slot(n, r.size)].number != n
  }

  /** Every packet was handed over in its own place. */
  ghost predicate Right(handed: seq<Handed>) {
    forall i :: 0 <= i < |handed| ==> handed[i].packet.number == handed[i].place
  }

  /** Every number from the base on is due once, in order. */
  ghost predicate InPlace(handed: seq<Handed>, lo: int, hi: int) {
    (forall i :: 0 <= i < |handed| ==> lo <= handed[i].place < hi) &&
    forall i, j :: 0 <= i < j < |handed| ==> handed[i].place < handed[j].place
  }

  /** The base moves on; the packet stays in its slot. */
  function Passed(r: Ring): Ring {
    r.(base := r.base + 1, count := Dec16(r.count))
  }

  /** The base moves on, and its slot is emptied. */
  function Emptied(r: Ring): Ring
    requires ValidSize(r.size)
  {
    Passed(r).(slots := r.slots - {Slot(r.base, r.size)})
  }

  function FlushKeeping(r: Ring): Handing
    requires ValidSize(r.size)
    decreases r.count
  {
    var i := Slot(r.base, r.size);
    if r.count == 0 || i !in r.slots then Handing(r, [], 0)
    else
      var rest := FlushKeeping(Passed(r));
      Handing(rest.ring, [Handed(r.base, r.slots[i])] + rest.handed, rest.lost)
  }

  function ForceKeeping(r: Ring, target: int): (f: Handing)
    requires ValidSize(r.size)
    ensures f.ring.size == r.size
    decreases target - r.base
  {
    var i := Slot(r.base, r.size);
    if target - r.base < r.size then Handing(r, [], 0)
    else if i in r.slots then
      var rest := ForceKeeping(Emptied(r), target);
      Handing(rest.ring, [Handed(r.base, r.slots[i])] + rest.handed, rest.lost)
    else
      var rest := ForceKeeping(r.(base := r.base + 1), target);
      Handing(rest.ring, rest.handed, rest.lost + 1)
  }

  function Stored(r: Ring, n: int, buf: Buffer): Ring
    requires ValidSize(r.size)
  {
    r.(slots := r.slots[Slot(n, r.size) := Delivery(n, buf)], count := Inc16(r.count))
  }

  /** A slot that holds the same 16-bit number has the packet already. */
  predicate Duplicate(r: Ring, n: int)
    requires ValidSize(r.size)
  {
    Slot(n, r.size) in r.slots && r.slots[Slot(n, r.size)].number % 65536 == n % 65536
  }

  /** Packet n arrives in the active phase; `recovered` is what parity yields for the missing packet at the base. */
  function InsertKeeping(r: Ring, n: int, buf: Buffer, recovered: Option<Buffer>): Handing
    requires ValidSize(r.size)
  {
    if n == r.base then FlushKeeping(Stored(r, n, buf))
    else if n < r.base then Handing(r, [], 0)
    else
      var f := ForceKeeping(r, n);
      if Duplicate(f.ring, n) then f
      else
        var s := Stored(f.ring, n, buf);
        if recovered.None? then Handing(s, f.handed, f.lost)
        else
          var rest := FlushKeeping(s.(base := s.base + 1));
          Handing(rest.ring, f.handed + [Handed(s.base, Delivery(s.base, recovered.value))] + rest.handed, f.lost)
  }

  /** Handing over from the base on goes wrong exactly when a number that is passed finds another packet in its slot. */
  lemma {:induction false} FlushExact(r: Ring)
    requires Placed(r)
    ensures var f := FlushKeeping(r);
      Placed(f.ring) && f.ring == r.(base := f.ring.base, count := f.ring.count) &&
      r.base <= f.ring.base <= r.base + r.count &&
      InPlace(f.handed, r.base, f.ring.base) && |f.handed| == f.ring.base - r.base && f.lost == 0 &&
      (Right(f.handed) <==> forall n :: r.base <= n < f.ring.base ==> !Stale(r, n))
    decreases r.count
  {
    var i := Slot(r.base, r.size);
    if r.count != 0 && i in r.slots {
      var next := Passed(r);
      FlushExact(next);
      var rest, f := FlushKeeping(next), FlushKeeping(r);
      assert f.handed[1..] == rest.handed;
      RightSplit(f.handed);
      assert Stale(r, r.base) <==> f.handed[0].packet.number != f.handed[0].place;
      assert forall n :: Stale(next, n) <==> Stale(r, n);
      assert f.ring == rest.ring && r.base < f.ring.base;
      hide FlushKeeping, Slot, Stale, Right, Placed;
    }
  }

  lemma RightSplit(handed: seq<Handed>)
    requires handed != []
    ensures Right(handed) <==> handed[0].packet.number == handed[0].place && Right(handed[1..])
  {
    assert handed == [handed[0]] + handed[1..];
  }

  /** A number in the window has a slot of its own. */
  lemma OwnSlot(size: nat, a: int, b: int)
    requires ValidSize(size) && a < b < a + size
    ensures Slot(a, size) != Slot(b, size)
  {
  }

  lemma SameSlot(size: nat, a: int)
    requires ValidSize(size)
    ensures Slot(a + size, size) == Slot(a, size)
  {
  }

  /** No number of the window below another finds another packet in its slot. */
  ghost predicate Passable(r: Ring, hi: int)
    requires ValidSize(r.size)
  {
    forall n :: r.base <= n < hi && n < r.base + r.size ==> !Stale(r, n)
  }

  lemma PassableNext(r: Ring, hi: int)
    requires ValidSize(r.size) && hi > r.base
    ensures Passable(r, hi) <==>
      !Stale(r, r.base) && Passable(if Slot(r.base, r.size) in r.slots then Emptied(r) else r.(base := r.base + 1), hi)
  {
    StaleNext(r);
    hide Stale, Slot;
    var next := if Slot(r.base, r.size) in r.slots then Emptied(r) else r.(base := r.base + 1);
    assert next.base == r.base + 1 && next.size == r.size;
    if Passable(r, hi) {
      forall n | next.base <= n < hi && n < next.base + next.size ensures !Stale(next, n) {
        assert n < r.base + r.size ==> Stale(next, n) == Stale(r, n);
      }
    }
    if !Stale(r, r.base) && Passable(next, hi) {
      forall n | r.base <= n < hi && n < r.base + r.size ensures !Stale(r, n) {
        assert n > r.base ==> Stale(next, n) == Stale(r, n);
      }
    }
  }

  /** What force flushing passes is right exactly when, beforehand, no number to be passed found another packet in its
    * slot. */
  lemma {:induction false} ForceExact(r: Ring, target: int)
    requires Placed(r)
    ensures var f := ForceKeeping(r, target);
      Placed(f.ring) && f.ring.size == r.size &&
      f.ring.base == (if target - r.base < r.size then r.base else target - r.size + 1) &&
      InPlace(f.handed, r.base, f.ring.base) && f.ring.base - r.base == |f.handed| + f.lost &&
      (Right(f.handed) <==> Passable(r, f.ring.base))
    decreases target - r.base
  {
    assert ValidSize(r.size);
    hide Slot, Stale, Placed, Emptied, Right, InPlace, Passable;
    NoneHanded(r, r.base);
    if target - r.base >= r.size {
      var i := Slot(r.base, r.size);
      var next := if i in r.slots then Emptied(r) else r.(base := r.base + 1);
      PassableNext(r, target - r.size + 1);
      StaleAt(r, r.base);
      NextPlaced(r);
      ForceExact(next, target);
      var rest, f := ForceKeeping(next, target), ForceKeeping(r, target);
      hide ForceKeeping;
      if i in r.slots {
        OneHanded(Handed(r.base, r.slots[i]), rest.handed, f.ring.base);
      } else {
        PlacesLater(rest.handed, r.base, f.ring.base);
      }
    }
  }

  lemma NoneHanded(r: Ring, lo: int)
    requires ValidSize(r.size)
    ensures Right([]) && InPlace([], lo, lo) && Passable(r, r.base)
  {
  }

  lemma OneHanded(h: Handed, rest: seq<Handed>, hi: int)
    requires InPlace(rest, h.place + 1, hi) && h.place < hi
    ensures InPlace([h] + rest, h.place, hi) && (Right([h] + rest) <==> h.packet.number == h.place && Right(rest))
  {
    var all := [h] + rest;
    assert all[1..] == rest && all[0] == h;
    RightSplit(all);
  }

  lemma PlacesLater(handed: seq<Handed>, lo: int, hi: int)
    requires InPlace(handed, lo + 1, hi)
    ensures InPlace(handed, lo, hi)
  {
  }

  lemma StaleAt(r: Ring, n: int)
    requires ValidSize(r.size)
    ensures Stale(r, n) <==> Slot(n, r.size) in r.slots && r.slots[Slot(n, r.size)].number != n
  {
  }

  /** Emptying the slot at the base changes no other slot of the window. */
  lemma StaleNext(r: Ring)
    requires ValidSize(r.size)
    ensures var next := if Slot(r.base, r.size) in r.slots then Emptied(r) else r.(base := r.base + 1);
      (forall n :: r.base < n < r.base + r.size ==> Stale(next, n) == Stale(r, n)) && !Stale(next, r.base + r.size)
  {
    hide Slot;
    var next := if Slot(r.base, r.size) in r.slots then Emptied(r) else r.(base := r.base + 1);
    forall n | r.base < n < r.base + r.size ensures Stale(next, n) == Stale(r, n) {
      OwnSlot(r.size, r.base, n);
    }
    SameSlot(r.size, r.base);
  }

  lemma NextPlaced(r: Ring)
    requires Placed(r)
    ensures Placed(Emptied(r)) && (Slot(r.base, r.size) !in r.slots ==> Placed(r.(base := r.base + 1)))
    ensures Emptied(r).base == r.base + 1 && Emptied(r).size == r.size
  {
  }

  /** Every number from the base to this one finds a packet in its slot. */
  ghost predicate Filled(r: Ring, n: int)
    requires ValidSize(r.size)
  {
    forall k :: r.base <= k <= n ==> Slot(k, r.size) in r.slots
  }

  /** Handing over stops at the first empty slot, or when as many were passed as are counted. */
  lemma {:induction false} FlushStops(r: Ring)
    requires Placed(r)
    ensures var end := FlushKeeping(r).ring.base;
      forall n :: r.base <= n ==> (n < end <==> n < r.base + r.count && Filled(r, n))
    decreases r.count
  {
    var i, end := Slot(r.base, r.size), FlushKeeping(r).ring.base;
    if r.count != 0 && i in r.slots {
      FlushStops(Passed(r));
      FlushExact(Passed(r));
      forall n | r.base < n ensures Filled(r, n) <==> Filled(Passed(r), n) {
      }
    }
  }

  /** No number that handing over from the base on will pass finds another packet in its slot. */
  ghost predicate Ahead(r: Ring)
    requires ValidSize(r.size)
  {
    forall n :: r.base <= n < r.base + r.count && Filled(r, n) ==> !Stale(r, n)
  }

  lemma FlushRight(r: Ring)
    requires Placed(r)
    ensures Right(FlushKeeping(r).handed) <==> Ahead(r)
  {
    FlushExact(r);
    FlushStops(r);
    hide FlushKeeping, Right, Stale, Filled, Placed;
  }

  /** The slots that are emptied to make room for a number beyond the window. */
  ghost function Cleared(r: Ring, n: int): set<nat>
    requires ValidSize(r.size)
  {
    set i | i in r.slots && exists k :: r.base <= k <= n - r.size && Slot(k, r.size) == i
  }

  /** The ring once room was made. */
  ghost function Room(r: Ring, n: int): Ring
    requires ValidSize(r.size)
  {
    Ring(r.size, if n - r.base < r.size then r.base else n - r.size + 1, (r.count - |Cleared(r, n)|) % 65536,
      r.slots - Cleared(r, n))
  }

  lemma {:induction false} MakesRoom(r: Ring, n: int)
    requires ValidSize(r.size)
    ensures ForceKeeping(r, n).ring == Room(r, n)
    decreases n - r.base
  {
    if n - r.base < r.size {
      assert Cleared(r, n) == {};
    } else {
      hide ForceKeeping, Cleared, Slot, Dec16;
      MakesRoom(if Slot(r.base, r.size) in r.slots then Emptied(r) else r.(base := r.base + 1), n);
      ForceFirst(r, n);
      ClearedFirst(r, n);
      RoomFirst(r, n);
    }
  }

  lemma RoomFirst(r: Ring, n: int)
    requires ValidSize(r.size) && n - r.base >= r.size
    ensures Room(if Slot(r.base, r.size) in r.slots then Emptied(r) else r.(base := r.base + 1), n) == Room(r, n)
  {
    hide Cleared, Slot;
    ClearedFirst(r, n);
    var i := Slot(r.base, r.size);
    if i in r.slots {
      var rest := Cleared(Emptied(r), n);
      assert r.slots - {i} - rest == r.slots - Cleared(r, n);
      OneLess(r.count, |rest|);
      assert |Cleared(r, n)| == |rest| + 1;
    }
  }

  lemma OneLess(count: Seq16, k: nat)
    ensures (Dec16(count) - k) % 65536 == (count - (k + 1)) % 65536
  {
  }

  lemma ForceFirst(r: Ring, n: int)
    requires ValidSize(r.size) && n - r.base >= r.size
    ensures ForceKeeping(r, n).ring == ForceKeeping(if Slot(r.base, r.size) in r.slots then Emptied(r)
      else r.(base := r.base + 1), n).ring
  {
  }

  lemma ClearedFirst(r: Ring, n: int)
    requires ValidSize(r.size) && n - r.base >= r.size
    ensures var i := Slot(r.base, r.size);
      if i in r.slots then i !in Cleared(Emptied(r), n) && Cleared(r, n) == Cleared(Emptied(r), n) + {i}
      else Cleared(r, n) == Cleared(r.(base := r.base + 1), n)
  {
    var i := Slot(r.base, r.size);
    var next := if i in r.slots then Emptied(r) else r.(base := r.base + 1);
    forall j ensures j in Cleared(r, n) <==> j in Cleared(next, n) || (j == i && i in r.slots) {
      if j in Cleared(r, n) && j != i {
        var k :| r.base <= k <= n - r.size && Slot(k, r.size) == j;
        assert next.base <= k;
      }
      if j == i && i in r.slots {
        assert Slot(r.base, r.size) == j;
      }
      if j in Cleared(next, n) {
        var k :| next.base <= k <= n - r.size && Slot(k, r.size) == j;
        assert r.base <= k;
      }
    }
  }

  /** The ring in which a packet beyond the base has its slot. */
  ghost function After(r: Ring, n: int, buf: Buffer): Ring
    requires ValidSize(r.size)
  {
    Stored(Room(r, n), n, buf)
  }

  /** What an arrival hands over, seen from the ring beforehand: every number passed to make room, and every number
    * passed from the base on once the packet has its slot, or from the next one on once the packet at the base was
    * recovered, finds no other packet. */
  ghost predicate Clean(r: Ring, n: int, buf: Buffer, recovered: Option<Buffer>)
    requires ValidSize(r.size)
  {
    if n == r.base then Ahead(Stored(r, n, buf))
    else if n < r.base then true
    else
      (forall k :: r.base <= k <= n - r.size && k < r.base + r.size ==> !Stale(r, k)) &&
      (recovered.Some? && !Duplicate(Room(r, n), n) ==> Ahead(After(r, n, buf).(base := Room(r, n).base + 1)))
  }

  /** An arrival hands over every packet in its own place exactly when the ring beforehand is clean for it. */
  lemma InsertExact(r: Ring, n: int, buf: Buffer, recovered: Option<Buffer>)
    requires Placed(r)
    ensures var o := InsertKeeping(r, n, buf, recovered);
      InPlace(o.handed, r.base, o.ring.base) && o.ring.base - r.base == |o.handed| + o.lost && Placed(o.ring) &&
      (Right(o.handed) <==> Clean(r, n, buf, recovered))
  {
    hide *;
    if n == r.base {
      AtBase(r, n, buf, recovered);
    } else if n > r.base {
      Beyond(r, n, buf, recovered);
    } else {
      NothingHanded(r, n, buf, recovered);
    }
  }

  lemma NothingHanded(r: Ring, n: int, buf: Buffer, recovered: Option<Buffer>)
    requires Placed(r) && n < r.base
    ensures InsertKeeping(r, n, buf, recovered) == Handing(r, [], 0) && Right([]) && InPlace([], r.base, r.base) &&
      Clean(r, n, buf, recovered)
  {
  }

  lemma AtBase(r: Ring, n: int, buf: Buffer, recovered: Option<Buffer>)
    requires Placed(r) && n == r.base
    ensures var o := InsertKeeping(r, n, buf, recovered);
      InPlace(o.handed, r.base, o.ring.base) && o.ring.base - r.base == |o.handed| + o.lost && Placed(o.ring) &&
      (Right(o.handed) <==> Clean(r, n, buf, recovered))
  {
    hide FlushKeeping, Stored, Right, Ahead, InPlace;
    StoredPlaced(r, n, buf);
    FlushExact(Stored(r, n, buf));
    FlushRight(Stored(r, n, buf));
  }

  lemma Beyond(r: Ring, n: int, buf: Buffer, recovered: Option<Buffer>)
    requires Placed(r) && n > r.base
    ensures var o := InsertKeeping(r, n, buf, recovered);
      InPlace(o.handed, r.base, o.ring.base) && o.ring.base - r.base == |o.handed| + o.lost && Placed(o.ring) &&
      (Right(o.handed) <==> Clean(r, n, buf, recovered))
  {
    hide FlushKeeping, ForceKeeping, Stored, Right, Ahead, InPlace, Slot, Room, Stale, Duplicate;
    ForceExact(r, n);
    MakesRoom(r, n);
    var f := ForceKeeping(r, n);
    ForcedRange(r, n);
    StoredPlaced(f.ring, n, buf);
    if recovered.Some? && !Duplicate(f.ring, n) {
      var s := Stored(f.ring, n, buf);
      StillPlaced(s);
      FlushExact(s.(base := s.base + 1));
      FlushRight(s.(base := s.base + 1));
      var rest := FlushKeeping(s.(base := s.base + 1));
      Continued(f.handed, r.base, Handed(s.base, Delivery(s.base, recovered.value)), rest.handed, rest.ring.base);
    }
  }

  lemma ForcedRange(r: Ring, n: int)
    requires Placed(r)
    ensures var base := if n - r.base < r.size then r.base else n - r.size + 1;
      (forall k :: r.base <= k < base && k < r.base + r.size ==> !Stale(r, k)) <==>
      (forall k :: r.base <= k <= n - r.size && k < r.base + r.size ==> !Stale(r, k))
  {
    hide Stale;
  }

  lemma StillPlaced(r: Ring)
    requires Placed(r)
    ensures Placed(r.(base := r.base + 1))
  {
  }

  lemma Continued(front: seq<Handed>, lo: int, one: Handed, rest: seq<Handed>, hi: int)
    requires InPlace(front, lo, one.place) && lo <= one.place && InPlace(rest, one.place + 1, hi) && one.place < hi
    ensures var all := front + [one] + rest; InPlace(all, lo, hi)
    ensures one.packet.number == one.place ==> (Right(front + [one] + rest) <==> Right(front) && Right(rest))
  {
    var all := front + [one] + rest;
    forall i | 0 <= i < |all| ensures all[i] ==
      if i < |front| then front[i] else if i == |front| then one else rest[i - |front| - 1] {
    }
    if Right(all) {
      assert forall i :: 0 <= i < |rest| ==> rest[i] == all[|front| + 1 + i];
      assert forall i :: 0 <= i < |front| ==> front[i] == all[i];
    }
  }

  lemma StoredPlaced(r: Ring, n: int, buf: Buffer)
    requires Placed(r) && n < r.base + r.size
    ensures Placed(Stored(r, n, buf)) && !Stale(Stored(r, n, buf), n) && Stored(r, n, buf).base == r.base &&
      Stored(r, n, buf).size == r.size
  {
  }

  lemma StoredStays(r: Ring, n: int, buf: Buffer)
    requires ValidSize(r.size)
    ensures Stored(r, n, buf).base == r.base && Stored(r, n, buf).size == r.size
  {
  }

  lemma {:induction false} FlushKeepsSlots(r: Ring)
    requires ValidSize(r.size)
    ensures FlushKeeping(r).ring.slots == r.slots
    decreases r.count
  {
    if r.count != 0 && Slot(r.base, r.size) in r.slots {
      FlushKeepsSlots(Passed(r));
    }
  }

  /** What an arrival leaves in the slots: a late one changes nothing; any other takes its slot, unless the packet of
    * the same 16-bit number is there once room was made, and the other slots stay as making room left them. */
  lemma SlotsExactly(r: Ring, n: int, buf: Buffer, recovered: Option<Buffer>)
    requires ValidSize(r.size)
    ensures var after, room, i := InsertKeeping(r, n, buf, recovered).ring.slots, Room(r, n).slots, Slot(n, r.size);
      after ==
        if n < r.base then r.slots
        else if n > r.base && i in room && room[i].number % 65536 == n % 65536 then room
        else room[i := Delivery(n, buf)]
  {
    hide Slot, FlushKeeping, ForceKeeping;
    MakesRoom(r, n);
    var s := Stored(Room(r, n), n, buf);
    FlushKeepsSlots(s);
    FlushKeepsSlots(s.(base := s.base + 1));
    if n == r.base {
      NoRoomNeeded(r, n);
      FlushKeepsSlots(Stored(r, n, buf));
    }
  }

  lemma NoRoomNeeded(r: Ring, n: int)
    requires ValidSize(r.size) && n < r.base + r.size
    ensures Room(r, n).slots == r.slots
  {
    assert Cleared(r, n) == {};
  }

  /** No packet delivered before is kept. */
  ghost predicate Released(r: Ring) {
    forall i :: i in r.slots ==> r.slots[i].number >= r.base
  }

  /** As long as delivered packets are released before the next arrival, and only a packet that is missing is recovered,
    * nothing is handed over out of place. */
  lemma ReleasedIsRight(r: Ring, n: int, buf: Buffer, recovered: Option<Buffer>)
    requires Placed(r) && Released(r) && r.count < r.size
    requires recovered.Some? && n > r.base ==> Slot(Room(r, n).base, r.size) !in After(r, n, buf).slots
    ensures Right(InsertKeeping(r, n, buf, recovered).handed)
  {
    InsertExact(r, n, buf, recovered);
    hide InsertKeeping, Right, Slot, InPlace;
    forall k | r.base <= k < r.base + r.size ensures !Stale(r, k) {
      OneInWindow(r, k);
    }
    if n == r.base {
      StoredReleased(r, n, buf);
    } else if n > r.base && recovered.Some? {
      AfterReleased(r, n, buf);
    }
  }

  lemma StoredReleased(r: Ring, n: int, buf: Buffer)
    requires Placed(r) && Released(r) && r.count < r.size && n == r.base
    ensures Ahead(Stored(r, n, buf))
  {
    var s := Stored(r, n, buf);
    StoredPlaced(r, n, buf);
    forall k | s.base <= k < s.base + s.count ensures !Stale(s, k) {
      OneInWindow(s, k);
    }
  }

  lemma AfterReleased(r: Ring, n: int, buf: Buffer)
    requires Placed(r) && Released(r) && n > r.base && Slot(Room(r, n).base, r.size) !in After(r, n, buf).slots
    ensures Ahead(After(r, n, buf).(base := Room(r, n).base + 1))
  {
    var base := Room(r, n).base;
    var s := After(r, n, buf).(base := base + 1);
    AfterPlaced(r, n, buf);
    SameSlot(r.size, base);
    forall k | s.base <= k && Filled(s, k) ensures !Stale(s, k) {
      assert k < base + r.size;
      hide Room, After;
      OneInWindow(s, k);
    }
  }

  lemma AfterPlaced(r: Ring, n: int, buf: Buffer)
    requires Placed(r) && Released(r) && n > r.base && Slot(Room(r, n).base, r.size) !in After(r, n, buf).slots
    ensures var s := After(r, n, buf).(base := Room(r, n).base + 1); Placed(s) && Released(s)
  {
    var room := Room(r, n);
    assert Placed(room) && Released(room) by {
      hide After;
      forall i | i in room.slots ensures room.slots[i].number >= room.base {
        assert i !in Cleared(r, n) && Slot(r.slots[i].number, r.size) == i;
      }
    }
    hide Room, Cleared;
    StoredPlaced(room, n, buf);
  }

  lemma OneInWindow(r: Ring, k: int)
    requires Placed(r) && Released(r) && r.base <= k < r.base + r.size
    ensures !Stale(r, k)
  {
    if Slot(k, r.size) in r.slots {
      var m := r.slots[Slot(k, r.size)].number;
      if m < k { OwnSlot(r.size, m, k); } else if k < m { OwnSlot(r.size, k, m); }
    }
  }

  /** Packets arriving one after the other, with nothing to recover. */
  ghost function RunKeeping(r: Ring, ins: seq<Delivery>): Handing
    requires ValidSize(r.size)
    ensures RunKeeping(r, ins).ring.size == r.size
    decreases |ins|
  {
    if ins == [] then Handing(r, [], 0)
    else
      var before := RunKeeping(r, ins[..|ins| - 1]);
      var last := ins[|ins| - 1];
      var o := InsertKeeping(before.ring, last.number, last.packet, None);
      KeepsSize(before.ring, last.number, last.packet);
      Handing(o.ring, before.handed + o.handed, before.lost + o.lost)
  }

  lemma {:induction false} FlushKeepsSize(r: Ring)
    requires ValidSize(r.size)
    ensures FlushKeeping(r).ring.size == r.size
    decreases r.count
  {
    if r.count != 0 && Slot(r.base, r.size) in r.slots {
      FlushKeepsSize(Passed(r));
    }
  }

  lemma KeepsSize(r: Ring, n: int, buf: Buffer)
    requires ValidSize(r.size)
    ensures InsertKeeping(r, n, buf, None).ring.size == r.size
  {
    FlushKeepsSize(Stored(r, n, buf));
  }

  /** The ring of a window that holds nothing. */
  function Nothing(w: Window): Ring {
    Ring(w.size, w.base, w.count, map[])
  }

  /** Packets 8 to k - 1 in order, and where they stay. */
  ghost function Nexts(packet: nat -> Buffer, k: nat): seq<Delivery>
    requires k >= 8
  {
    seq(k - 8, i requires 0 <= i < k - 8 => Delivery(8 + i, packet(8 + i)))
  }

  /** The number from 8 to 39 that belongs in a slot. */
  function NumberIn(i: nat): nat { if i < 8 then i + 32 else i }

  ghost function Kept(packet: nat -> Buffer, k: nat): map<nat, Delivery> {
    map i: nat | i < 32 && NumberIn(i) < k :: i := Delivery(NumberIn(i), packet(NumberIn(i)))
  }

  lemma {:induction false} NextsKept(packet: nat -> Buffer, k: nat)
    requires 8 <= k <= 40
    ensures var r := RunKeeping(Ring(32, 8, 0, map[]), Nexts(packet, k));
      r.ring == Ring(32, k, 0, Kept(packet, k)) && |r.handed| == k - 8 &&
      forall i :: 0 <= i < k - 8 ==> r.handed[i] == Handed(8 + i, Delivery(8 + i, packet(8 + i)))
  {
    hide InsertKeeping, Kept, Nexts;
    if k == 8 {
      NoneKept(packet);
    } else {
      NextsKept(packet, k - 1);
      LastNext(packet, k);
      OneKept(packet, k - 1);
    }
  }

  lemma NoneKept(packet: nat -> Buffer)
    ensures Nexts(packet, 8) == [] && Kept(packet, 8) == map[]
  {
  }

  lemma LastNext(packet: nat -> Buffer, k: nat)
    requires k > 8
    ensures var ins := Nexts(packet, k);
      |ins| == k - 8 && ins[..k - 9] == Nexts(packet, k - 1) && ins[k - 9] == Delivery(k - 1, packet(k - 1))
  {
  }

  lemma OneKept(packet: nat -> Buffer, k: nat)
    requires 8 <= k < 40
    ensures InsertKeeping(Ring(32, k, 0, Kept(packet, k)), k, packet(k), None) ==
      Handing(Ring(32, k + 1, 0, Kept(packet, k + 1)), [Handed(k, Delivery(k, packet(k)))], 0)
  {
    var s := Stored(Ring(32, k, 0, Kept(packet, k)), k, packet(k));
    assert s.slots == Kept(packet, k + 1);
    assert FlushKeeping(Passed(s)) == Handing(Passed(s), [], 0);
  }

  /** An input that replays: a new ring has handed over 0 to 7 when parity comes into use; then 8 to 39 arrive in order
    * and 72 after them, and packet 8 is handed over again in the place of 40. */
  lemma Replay(packet: nat -> Buffer)
    ensures var w := Run(New(32), Handoff.Firsts(packet, 8)).w;
      var r := RunKeeping(Nothing(w), Nexts(packet, 40) + [Delivery(72, packet(72))]);
      w.held == map[] && w.phase == 2 && |r.handed| == 33 &&
      r.handed[0].packet == r.handed[32].packet == Delivery(8, packet(8)) &&
      r.handed[32].place == 40 && !Right(r.handed)
  {
    Handoff.StartDelivery(packet);
    hide Insert, Run;
    var ins := Nexts(packet, 40) + [Delivery(72, packet(72))];
    NextsKept(packet, 40);
    assert ins[..32] == Nexts(packet, 40) && ins[32] == Delivery(72, packet(72));
    var full := Ring(32, 40, 0, Kept(packet, 40));
    var f := ForceKeeping(full, 72);
    assert ForceKeeping(Emptied(full), 72) == Handing(Emptied(full), [], 0);
    assert f.handed == [Handed(40, Delivery(8, packet(8)))];
    assert InsertKeeping(full, 72, packet(72), None).handed == f.handed;
  }
}
