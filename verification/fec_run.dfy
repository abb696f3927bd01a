/** Runs of the ring with parity in use: nothing goes out of place as long as expired packets leave it in time. */
module FecRun {

  import opened Sequences
  import opened FecReorder
  import opened FecRing
  import opened ReorderModel
  import opened FecGroups

  /** No packet held is further back than that. */
  ghost predicate Recent(r: Ring, back: nat) {
    forall i :: i in r.slots ==> r.slots[i].number >= r.base - back
  }

  /** A number has its slot for itself when all packets held are less than a window away from it. */
  lemma NobodyElse(r: Ring, k: int, lo: int, hi: int)
    requires ValidSize(r.size) && k - r.size < lo && hi <= k + r.size
    requires forall i :: i in r.slots ==> Slot(r.slots[i].number, r.size) == i && lo <= r.slots[i].number < hi
    ensures !Stale(r, k)
  {
    if Slot(k, r.size) in r.slots {
      var m := r.slots[Slot(k, r.size)].number;
      if m < k { OwnSlot(r.size, m, k); } else if k < m { OwnSlot(r.size, k, m); }
    }
  }

  /** As long as packets that far back have left the ring, an arrival that moves the base less than the rest of the
    * window hands nothing over out of place. */
  lemma RecentIsRight(r: Ring, n: int, buf: Buffer, recovered: Option<Buffer>, back: nat)
    requires Placed(r) && Recent(r, back) && InsertKeeping(r, n, buf, recovered).ring.base <= r.base + r.size - back
    ensures Right(InsertKeeping(r, n, buf, recovered).handed)
  {
    hide *;
    InsertExact(r, n, buf, recovered);
    if n == r.base {
      RecentAtBase(r, n, buf, recovered, back);
    } else if n > r.base {
      RecentBeyond(r, n, buf, recovered, back);
    } else {
      LateIsClean(r, n, buf, recovered);
    }
  }

  lemma LateIsClean(r: Ring, n: int, buf: Buffer, recovered: Option<Buffer>)
    requires Placed(r) && n < r.base
    ensures Clean(r, n, buf, recovered)
  {
  }

  /** The flush stops before any number that could meet an old packet. */
  lemma RecentAhead(r: Ring, lo: int, end: int)
    requires Placed(r) && FlushKeeping(r).ring.base <= end && end <= lo + r.size &&
      forall i :: i in r.slots ==> r.slots[i].number >= lo
    ensures FecReorder.Ahead(r)
  {
    FlushStops(r);
    hide FlushKeeping, Slot, Filled;
    forall n | r.base <= n < r.base + r.count && Filled(r, n) ensures !Stale(r, n) {
      NobodyElse(r, n, lo, r.base + r.size);
    }
  }

  lemma RecentAtBase(r: Ring, n: int, buf: Buffer, recovered: Option<Buffer>, back: nat)
    requires Placed(r) && Recent(r, back) && n == r.base &&
      InsertKeeping(r, n, buf, recovered).ring.base <= r.base + r.size - back
    ensures Clean(r, n, buf, recovered)
  {
    StoredPlaced(r, n, buf);
    hide FlushKeeping, FecReorder.Ahead, Slot, Stale;
    RecentAhead(FecReorder.Stored(r, n, buf), r.base - back, r.base + r.size - back);
  }

  lemma RecentBeyond(r: Ring, n: int, buf: Buffer, recovered: Option<Buffer>, back: nat)
    requires Placed(r) && Recent(r, back) && n > r.base &&
      InsertKeeping(r, n, buf, recovered).ring.base <= r.base + r.size - back
    ensures Clean(r, n, buf, recovered)
  {
    RoomFacts(r, n, back);
    hide InsertKeeping, FecReorder.Ahead, Slot, Stale, Duplicate, Room, Placed, Recent, After;
    RecentForced(r, n, buf, recovered, back);
    if recovered.Some? && !Duplicate(Room(r, n), n) {
      RecentRecovered(r, n, buf, recovered, back);
    }
  }

  lemma RecentForced(r: Ring, n: int, buf: Buffer, recovered: Option<Buffer>, back: nat)
    requires Placed(r) && Recent(r, back) && n > r.base &&
      InsertKeeping(r, n, buf, recovered).ring.base <= r.base + r.size - back
    ensures forall k :: r.base <= k <= n - r.size && k < r.base + r.size ==> !Stale(r, k)
  {
    MovesPast(r, n, buf, recovered, back);
    hide InsertKeeping, Slot, Stale;
    forall k | r.base <= k <= n - r.size && k < r.base + r.size ensures !Stale(r, k) {
      NobodyElse(r, k, r.base - back, r.base + r.size);
    }
  }

  lemma RecentRecovered(r: Ring, n: int, buf: Buffer, recovered: Option<Buffer>, back: nat)
    requires Placed(r) && Recent(r, back) && n > r.base &&
      InsertKeeping(r, n, buf, recovered).ring.base <= r.base + r.size - back
    requires recovered.Some? && !Duplicate(Room(r, n), n)
    ensures FecReorder.Ahead(After(r, n, buf).(base := Room(r, n).base + 1))
  {
    hide InsertKeeping, ForceKeeping, FlushKeeping, FecReorder.Ahead, Slot, Duplicate, Room;
    MakesRoom(r, n);
    InsertIs(r, n, buf, recovered);
    AfterRecent(r, n, buf, back);
    RoomFacts(r, n, back);
    var s := FecReorder.Stored(Room(r, n), n, buf);
    RecentAhead(s.(base := s.base + 1), r.base - back, r.base + r.size - back);
  }

  lemma RoomFacts(r: Ring, n: int, back: nat)
    requires Placed(r) && Recent(r, back) && n > r.base
    ensures Placed(Room(r, n)) && Room(r, n).base >= r.base && n < Room(r, n).base + r.size && Room(r, n).size == r.size
    ensures n - r.size < Room(r, n).base &&
      forall i :: i in Room(r, n).slots ==> Room(r, n).slots[i].number >= r.base - back
  {
  }

  lemma MovesPast(r: Ring, n: int, buf: Buffer, recovered: Option<Buffer>, back: nat)
    requires Placed(r) && Recent(r, back) && n > r.base
    ensures InsertKeeping(r, n, buf, recovered).ring.base > n - r.size
  {
    MakesRoom(r, n);
    InsertIs(r, n, buf, recovered);
    RoomFacts(r, n, back);
    AfterRecent(r, n, buf, back);
    hide ForceKeeping, FlushKeeping, Slot, Duplicate, InsertKeeping, Room, Placed;
    var s := FecReorder.Stored(Room(r, n), n, buf);
    FlushExact(s.(base := s.base + 1));
  }

  lemma AfterRecent(r: Ring, n: int, buf: Buffer, back: nat)
    requires Placed(r) && Recent(r, back) && n > r.base
    ensures var s := FecReorder.Stored(Room(r, n), n, buf);
      Placed(s.(base := s.base + 1)) && forall i :: i in s.slots ==> s.slots[i].number >= r.base - back
  {
    RoomFacts(r, n, back);
    StoredPlaced(Room(r, n), n, buf);
    hide Room, Slot;
  }

  // ----- what groups release -----

  /** Every packet handed over before is in a group of less than so many numbers, and less than half the number space
    * back. */
  ghost predicate Grouped(r: Ring, groups: seq<Group>, back: nat) {
    forall i :: i in r.slots && r.slots[i].number < r.base ==>
      r.base - r.slots[i].number < 32768 && exists j :: 0 <= j < |groups| && Holds(groups[j], r.slots[i].number, back)
  }

  ghost predicate Holds(g: Group, number: int, back: nat) {
    g.Active? && InRange(number, g.begin, g.end) && (g.end - g.begin) % 65536 < back
  }

  /** Dropping the expired groups releases every packet that far back. */
  lemma ReleaseIsRecent(r: Ring, groups: seq<Group>, back: nat)
    requires Grouped(r, groups, back)
    ensures Recent(Settled(r, groups), back)
  {
    hide InRange, Expired;
    var after := Settled(r, groups);
    forall i | i in after.slots ensures after.slots[i].number >= after.base - back {
      var m := r.slots[i].number;
      if m < r.base {
        var j :| 0 <= j < |groups| && Holds(groups[j], m, back);
        assert !Gone(groups[j], r.base % 65536, m);
        NotExpiredIsNear(r.base, m, groups[j], back);
      }
    }
  }

  lemma NotExpiredIsNear(base: int, m: int, g: Group, back: nat)
    requires m < base < m + 32768 && Holds(g, m, back) && !Expired(g, base % 65536)
    ensures m >= base - back
  {
    var ahead, behind := (g.end - base) % 65536, (g.end - m) % 65536;
    EndDistance(m, g.begin, g.end);
    AheadOfBase(base, g.end);
    SameResidue(base, m, g.end);
  }

  lemma EndDistance(m: int, begin: Seq16, end: Seq16)
    requires InRange(m, begin, end)
    ensures (end - m) % 65536 <= (end - begin) % 65536
  {
  }

  lemma AheadOfBase(base: int, end: Seq16)
    requires Diff(base % 65536, end) <= 0
    ensures (end - base) % 65536 <= 32768
  {
    var b := base % 65536;
    DiffIs(b, end);
    SameRemainder(end - base, end - b);
    hide Diff;
  }

  lemma SameRemainder(a: int, b: int)
    requires (a - b) % 65536 == 0
    ensures a % 65536 == b % 65536
  {
  }

  lemma SameResidue(base: int, m: int, end: Seq16)
    requires m < base < m + 32768 && (end - base) % 65536 <= 32768
    ensures (end - m) % 65536 >= base - m
  {
  }

  /** When no group has expired, nothing is to be released. */
  lemma NothingSpent(r: Ring, groups: seq<Group>)
    requires !SomeExpired(groups, r.base % 65536)
    ensures Settled(r, groups) == r
  {
    assert Freed(r.slots, groups, r.base % 65536) == r.slots;
  }

  // ----- over a run -----

  /** A packet, what is recovered when it comes, and the slots that are emptied after it. */
  datatype Arriving = Arriving(n: int, packet: Buffer, recovered: Option<Buffer>, released: set<nat>)

  ghost function RunReleasing(r: Ring, ins: seq<Arriving>): (o: Handing)
    requires Placed(r)
    ensures Placed(o.ring)
    decreases |ins|
  {
    if ins == [] then Handing(r, [], 0)
    else
      var before, last := RunReleasing(r, ins[..|ins| - 1]), ins[|ins| - 1];
      var o := InsertKeeping(before.ring, last.n, last.packet, last.recovered);
      InsertExact(before.ring, last.n, last.packet, last.recovered);
      Handing(o.ring.(slots := o.ring.slots - last.released), before.handed + o.handed, before.lost + o.lost)
  }

  /** Before every arrival packets that far back have left the ring, and it moves the base less than the rest of the
    * window. */
  ghost predicate KeepsUp(r: Ring, ins: seq<Arriving>, back: nat)
    requires Placed(r)
  {
    forall k :: 0 <= k < |ins| ==> StepKeepsUp(RunReleasing(r, ins[..k]).ring, ins[k], back)
  }

  ghost predicate StepKeepsUp(r: Ring, a: Arriving, back: nat)
    requires ValidSize(r.size)
  {
    Recent(r, back) && InsertKeeping(r, a.n, a.packet, a.recovered).ring.base <= r.base + r.size - back
  }

  /** Over such a run every packet goes out in its own place, each number once and in order. */
  lemma {:induction false} RunIsRight(r: Ring, ins: seq<Arriving>, back: nat)
    requires Placed(r) && KeepsUp(r, ins, back)
    ensures var o := RunReleasing(r, ins);
      Right(o.handed) && InPlace(o.handed, r.base, o.ring.base) && o.ring.base - r.base == |o.handed| + o.lost
    decreases |ins|
  {
    hide InsertKeeping, StepKeepsUp, Recent;
    if ins != [] {
      var n := |ins| - 1;
      var before, last := RunReleasing(r, ins[..n]), ins[n];
      assert KeepsUp(r, ins[..n], back) by {
        assert forall k :: 0 <= k < n ==> ins[..n][..k] == ins[..k];
      }
      RunIsRight(r, ins[..n], back);
      StepIsRight(before.ring, last, back);
      var o := InsertKeeping(before.ring, last.n, last.packet, last.recovered);
      JoinedPlaces(before.handed, o.handed, r.base, before.ring.base, o.ring.base);
    }
  }

  lemma StepIsRight(r: Ring, a: Arriving, back: nat)
    requires Placed(r) && StepKeepsUp(r, a, back)
    ensures var o := InsertKeeping(r, a.n, a.packet, a.recovered);
      Right(o.handed) && InPlace(o.handed, r.base, o.ring.base) && o.ring.base - r.base == |o.handed| + o.lost
  {
    RecentIsRight(r, a.n, a.packet, a.recovered, back);
    InsertExact(r, a.n, a.packet, a.recovered);
    hide InsertKeeping;
  }

  lemma JoinedPlaces(a: seq<Handed>, b: seq<Handed>, lo: int, mid: int, hi: int)
    requires InPlace(a, lo, mid) && InPlace(b, mid, hi) && lo <= mid <= hi && Right(a) && Right(b)
    ensures InPlace(a + b, lo, hi) && Right(a + b)
  {
    var all := a + b;
    forall i | 0 <= i < |all| ensures all[i] == if i < |a| then a[i] else b[i - |a|] {
    }
  }
}
