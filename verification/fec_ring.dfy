/** The reorder ring in its arrays once parity is in use: delivered packets stay in their slots. */
module FecRing {

  import opened Sequences
  import opened ReorderModel
  import opened FecReorder
  import RtpReorder
  import opened FecGroups

  /** What the slots hold, under the full numbers of the packets. */
  ghost function Holding(slots: seq<Option<Buffer>>, numbers: seq<int>): map<nat, Delivery>
    requires |slots| == |numbers|
  {
    map i: nat | i < |slots| && slots[i].Some? :: i := Delivery(numbers[i], slots[i].value)
  }

  lemma HoldingFilled(slots: seq<Option<Buffer>>, numbers: seq<int>, i: nat, b: Buffer, n: int)
    requires |slots| == |numbers| && i < |slots|
    ensures Holding(slots[i := Some(b)], numbers[i := n]) == Holding(slots, numbers)[i := Delivery(n, b)]
  {
  }

  lemma HoldingEmptied(slots: seq<Option<Buffer>>, numbers: seq<int>, i: nat)
    requires |slots| == |numbers| && i < |slots|
    ensures Holding(slots[i := None], numbers) == Holding(slots, numbers) - {i}
  {
  }

  lemma HoldingAt(slots: seq<Option<Buffer>>, numbers: seq<int>, i: nat)
    requires |slots| == |numbers| && i < |slots|
    ensures i in Holding(slots, numbers) <==> slots[i].Some?
    ensures slots[i].Some? ==> Holding(slots, numbers)[i] == Delivery(numbers[i], slots[i].value)
  {
  }

  /** The packets that went out. */
  ghost function Sent(handed: seq<Handed>): seq<Buffer> {
    seq(|handed|, i requires 0 <= i < |handed| => handed[i].packet.packet)
  }

  lemma SentOne(handed: seq<Handed>, h: Handed)
    ensures Sent(handed + [h]) == Sent(handed) + [h.packet.packet]
  {
  }

  lemma DiffDown(a: Seq16, b: Seq16)
    requires Diff(a, b) > -32768
    ensures Diff(a, Inc16(b)) == Diff(a, b) - 1
  {
  }

  lemma {:induction false} FlushLosesNothing(r: Ring)
    requires ValidSize(r.size)
    ensures FlushKeeping(r).lost == 0
    decreases r.count
  {
    if r.count != 0 && Slot(r.base, r.size) in r.slots {
      FlushLosesNothing(Passed(r));
    }
  }

  /** One number passed to make room. */
  lemma ForceOne(r: Ring, n: int)
    requires ValidSize(r.size) && n - r.base >= r.size
    ensures var i, f := Slot(r.base, r.size), ForceKeeping(r, n);
      if i in r.slots then
        var rest := ForceKeeping(Emptied(r), n);
        f == Handing(rest.ring, [Handed(r.base, r.slots[i])] + rest.handed, rest.lost)
      else
        var rest := ForceKeeping(r.(base := r.base + 1), n);
        f == Handing(rest.ring, rest.handed, rest.lost + 1)
  {
    hide Slot;
  }

  /** What becomes of a packet beyond the base once there is room for it. */
  ghost function KeepOne(r: Ring, n: int, buf: Buffer, recovered: Option<Buffer>): Handing
    requires ValidSize(r.size)
  {
    var s := FecReorder.Stored(r, n, buf);
    if Duplicate(r, n) || recovered.None? then Handing(if Duplicate(r, n) then r else s, [], 0)
    else
      var rest := FlushKeeping(s.(base := s.base + 1));
      Handing(rest.ring, [Handed(s.base, Delivery(s.base, recovered.value))] + rest.handed, rest.lost)
  }

  /** An arrival is making room and keeping the packet, or handing over from the base on. */
  lemma InsertIs(r: Ring, n: int, buf: Buffer, recovered: Option<Buffer>)
    requires ValidSize(r.size)
    ensures var o := InsertKeeping(r, n, buf, recovered);
      if n == r.base then o == FlushKeeping(FecReorder.Stored(r, n, buf))
      else if n < r.base then o == Handing(r, [], 0)
      else
        var f := ForceKeeping(r, n);
        var k := KeepOne(f.ring, n, buf, recovered);
        o == Handing(k.ring, f.handed + k.handed, f.lost)
  {
    hide Slot, FlushKeeping, ForceKeeping, Duplicate;
    if n > r.base {
      var f := ForceKeeping(r, n);
      assert f.handed + [] == f.handed;
      if recovered.Some? {
        var s := FecReorder.Stored(f.ring, n, buf);
        var one, rest := [Handed(s.base, Delivery(s.base, recovered.value))],
          FlushKeeping(s.(base := s.base + 1)).handed;
        assert f.handed + one + rest == f.handed + (one + rest);
      }
    }
  }

  class Reorder {
    const windowSize: nat
    const slots: array<Option<Buffer>>
    const seqs: array<Seq16>
    var baseSeq: Seq16
    var count: Seq16

    /** What went out, and how many numbers were given up. */
    var sent: seq<Buffer>
    var lost: nat

    /** The full numbers behind the 16-bit ones, and what went out in which place. */
    ghost var base: int
    ghost var numbers: seq<int>
    ghost var handed: seq<Handed>

    ghost predicate Valid()
      reads this, slots, seqs
    {
      ValidSize(windowSize) && slots.Length == seqs.Length == |numbers| == windowSize && base % 65536 == baseSeq &&
      (forall i :: 0 <= i < windowSize && slots[i].Some? ==> seqs[i] == numbers[i] % 65536) && sent == Sent(handed)
    }

    ghost function View(): Ring
      requires slots.Length == |numbers|
      reads this, slots
    {
      Ring(windowSize, base, count, Holding(slots[..], numbers))
    }

    /** The ring as it stands when parity comes into use and nothing is held. */
    constructor (size: nat, baseSeq: Seq16, ghost start: int)
      requires ValidSize(size) && start % 65536 == baseSeq
      ensures Valid() && fresh(slots) && fresh(seqs) && View() == Ring(size, start, 0, map[]) && handed == [] &&
        lost == 0
    {
      windowSize := size;
      slots := new Option<Buffer>[size](_ => None);
      seqs := new Seq16[size](_ => 0);
      this.baseSeq, count, sent, lost := baseSeq, 0, [], 0;
      base, numbers, handed := start, seq(size, _ => 0), [];
      new;
      assert Holding(slots[..], numbers) == map[];
    }

    lemma BaseSlot()
      requires Valid()
      ensures Slot(baseSeq, windowSize) == Slot(base, windowSize) < slots.Length
    {
      RtpReorder.SlotOfSeq(base, windowSize);
    }

    /** The packet in the slot of the base goes out, and the base moves on. */
    method Deliver(i: nat)
      requires Valid() && i == Slot(base, windowSize) && slots[i].Some?
      modifies this`sent, this`handed, this`base, this`baseSeq, this`count
      ensures Valid() && View() == Passed(old(View())) && i in View().slots && baseSeq == Inc16(old(baseSeq))
      ensures handed == old(handed) + [Handed(old(base), View().slots[i])]
    {
      hide Slot;
      HoldingAt(slots[..], numbers, i);
      ghost var h := Handed(base, Delivery(numbers[i], slots[i].value));
      SentOne(handed, h);
      sent, handed := sent + [slots[i].value], handed + [h];
      base, baseSeq, count := base + 1, Inc16(baseSeq), Dec16(count);
    }

    /** Consecutive packets from the base on go out; they stay in their slots. */
    method FlushConsecutive()
      requires Valid()
      modifies this`sent, this`handed, this`base, this`baseSeq, this`count
      ensures Valid() && View() == FlushKeeping(old(View())).ring &&
        handed == old(handed) + FlushKeeping(old(View())).handed
    {
      hide Slot, Holding;
      while count > 0
        invariant Valid() && FlushKeeping(View()).ring == FlushKeeping(old(View())).ring
        invariant handed + FlushKeeping(View()).handed == old(handed) + FlushKeeping(old(View())).handed
        decreases count
      {
        BaseSlot();
        var i := Slot(baseSeq, windowSize);
        HoldingAt(slots[..], numbers, i);
        if slots[i].None? {
          return;
        }
        Deliver(i);
      }
    }

    /** A slot is emptied. */
    method Empty(i: nat)
      requires Valid() && i < slots.Length
      modifies slots
      ensures Valid() && View() == old(View()).(slots := old(View()).slots - {i})
    {
      HoldingEmptied(slots[..], numbers, i);
      slots[i] := None;
      assert slots[..] == old(slots[..])[i := None];
    }

    /** Make room for a number beyond the window: what is there on the way goes out and is released, what is not is
      * given up. */
    method ForceFlushUntil(target: Seq16, ghost n: int)
      requires Valid() && n == base + Diff(target, baseSeq)
      modifies this`sent, this`handed, this`base, this`baseSeq, this`count, this`lost, slots
      ensures var f := ForceKeeping(old(View()), n);
        Valid() && View() == f.ring && handed == old(handed) + f.handed && lost == old(lost) + f.lost
    {
      hide Slot, Holding, ForceKeeping, Diff, Inc16;
      while Diff(target, baseSeq) >= windowSize
        invariant Valid() && n == base + Diff(target, baseSeq)
        invariant var f, g := ForceKeeping(View(), n), ForceKeeping(old(View()), n);
          f.ring == g.ring && handed + f.handed == old(handed) + g.handed && lost + f.lost == old(lost) + g.lost
        decreases n - base
      {
        ForceOne(View(), n);
        DiffDown(target, baseSeq);
        GiveOne();
      }
      NoneForced(View(), n);
    }

    lemma NoneForced(r: Ring, n: int)
      requires ValidSize(r.size) && n - r.base < r.size
      ensures ForceKeeping(r, n) == Handing(r, [], 0)
    {
    }

    /** The number at the base is passed. */
    method GiveOne()
      requires Valid()
      modifies this`sent, this`handed, this`base, this`baseSeq, this`count, this`lost, slots
      ensures Valid() && base == old(base) + 1 && baseSeq == Inc16(old(baseSeq))
      ensures var r := old(View()); var i := Slot(r.base, r.size);
        if i in r.slots then
          View() == Emptied(r) && handed == old(handed) + [Handed(r.base, r.slots[i])] && lost == old(lost)
        else View() == r.(base := r.base + 1) && handed == old(handed) && lost == old(lost) + 1
    {
      hide Slot, Holding;
      BaseSlot();
      var i := Slot(baseSeq, windowSize);
      HoldingAt(slots[..], numbers, i);
      if slots[i].Some? {
        Deliver(i);
        Empty(i);
      } else {
        lost := lost + 1;
        base, baseSeq := base + 1, Inc16(baseSeq);
      }
    }

    /** A packet takes its slot, whatever was there. */
    method Store(buf: Buffer, seqn: Seq16, ghost n: int)
      requires Valid() && n % 65536 == seqn
      modifies this`count, this`numbers, slots, seqs
      ensures Valid() && View() == FecReorder.Stored(old(View()), n, buf)
    {
      RtpReorder.SlotOfSeq(n, windowSize);
      var i := Slot(seqn, windowSize);
      HoldingFilled(slots[..], numbers, i, buf, n);
      hide Slot;
      slots[i] := Some(buf);
      seqs[i] := seqn;
      numbers := numbers[i := n];
      count := Inc16(count);
      assert slots[..] == old(slots[..])[i := Some(buf)];
    }

    /** One packet arrives; `recovered` is what parity yields for the missing packet at the base. After a flush the
      * groups that have expired are dropped, and their packets leave the ring. */
    method Insert(buf: Buffer, seqn: Seq16, recovered: Option<Buffer>, fec: Context, ghost origin: Seq16)
      requires Valid() && Placed(View()) && fec.Counted() && Within(fec.Table(), origin)
      modifies this`sent, this`handed, this`base, this`baseSeq, this`count, this`lost, this`numbers, slots, seqs, fec,
        fec.groups
      ensures Valid() && Placed(View()) && fec.Counted() && Within(fec.Table(), origin) &&
        (old(fec.Valid()) ==> fec.Valid())
      ensures var r, n := old(View()), old(base) + Diff(seqn, old(baseSeq));
        var o := InsertKeeping(r, n, buf, recovered);
        handed == old(handed) + o.handed && lost == old(lost) + o.lost &&
        if Flushes(r, n, recovered) && Fires(old(fec.minEndValid), old(fec.minEnd), o.ring.base) then
          View() == Settled(o.ring, old(fec.Table())) && fec.Table() == Unspent(old(fec.Table()), o.ring.base % 65536)
        else View() == o.ring && fec.Table() == old(fec.Table())
    {
      hide InsertKeeping, Placed, FecGroups.Context.Counted, FecGroups.Context.Valid, Within, Flushes, Unspent, Settled,
        Diff;
      ghost var n := base + Diff(seqn, baseSeq);
      InsertExact(View(), n, buf, recovered);
      var flushed := Take(buf, seqn, recovered);
      if flushed && fec.minEndValid && Diff(baseSeq, fec.minEnd) > 0 {
        ReleaseExpired(fec, origin);
      }
    }

    /** Every expired group is dropped, and its packets leave the ring. */
    method ReleaseExpired(fec: Context, ghost origin: Seq16)
      requires Valid() && Placed(View()) && fec.Counted() && Within(fec.Table(), origin)
      modifies slots, fec, fec.groups
      ensures Valid() && Placed(View()) && fec.Counted() && Within(fec.Table(), origin) &&
        (old(fec.Valid()) ==> fec.Valid())
      ensures View() == Settled(old(View()), old(fec.Table())) && fec.Table() == Unspent(old(fec.Table()), baseSeq)
    {
      hide Holding, Slot, Freed, Placed, Outside;
      ghost var table := fec.Table();
      NothingFreed(View().slots, baseSeq);
      if fec.groups != null {
        assert table[..0] == [];
        for i := 0 to fec.groups.Length
          invariant Valid() && unchanged(fec) && unchanged(fec.groups) &&
            View() == old(View()).(slots := Freed(old(View()).slots, table[..i], baseSeq))
        {
          FreedNext(old(View()).slots, table, i, baseSeq);
          FreedFewer(old(View()), table[..i], baseSeq);
          if FecGroups.Expired(fec.groups[i], baseSeq) {
            ReleaseRange(fec.groups[i].begin, fec.groups[i].end);
          }
        }
        assert table[..|table|] == table;
      }
      FreedFewer(old(View()), table, baseSeq);
      fec.ReleaseExpired(baseSeq, origin);
    }

    /** What the packet itself does; the result tells whether packets were flushed. */
    method Take(buf: Buffer, seqn: Seq16, recovered: Option<Buffer>) returns (flushed: bool)
      requires Valid()
      modifies this`sent, this`handed, this`base, this`baseSeq, this`count, this`lost, this`numbers, slots, seqs
      ensures Valid() && flushed == Flushes(old(View()), old(base) + Diff(seqn, old(baseSeq)), recovered)
      ensures var o := InsertKeeping(old(View()), old(base) + Diff(seqn, old(baseSeq)), buf, recovered);
        View() == o.ring && handed == old(handed) + o.handed && lost == old(lost) + o.lost
    {
      hide Slot, Holding, FlushKeeping, ForceKeeping, FecReorder.Stored, InsertKeeping, KeepOne, Duplicate;
      var diff := Diff(seqn, baseSeq);
      ghost var n := base + diff;
      InsertIs(View(), n, buf, recovered);
      if diff == 0 {
        Store(buf, seqn, n);
        FlushLosesNothing(View());
        FlushConsecutive();
        return true;
      }
      if diff < 0 {
        return false;
      }
      ForceFlushUntil(seqn, n);
      flushed := Keep(buf, seqn, n, recovered);
    }

    /** With room for it, a packet beyond the base is kept unless it is there already; then the base may have been
      * recovered. */
    method Keep(buf: Buffer, seqn: Seq16, ghost n: int, recovered: Option<Buffer>) returns (flushed: bool)
      requires Valid() && n % 65536 == seqn
      modifies this`sent, this`handed, this`base, this`baseSeq, this`count, this`numbers, slots, seqs
      ensures Valid() && flushed == (recovered.Some? && !Duplicate(old(View()), n))
      ensures var o := KeepOne(old(View()), n, buf, recovered);
        View() == o.ring && handed == old(handed) + o.handed && o.lost == 0
    {
      hide Slot, Holding, FlushKeeping, FecReorder.Stored;
      var i := Slot(seqn, windowSize);
      RtpReorder.SlotOfSeq(n, windowSize);
      HoldingAt(slots[..], numbers, i);
      if slots[i].Some? && seqs[i] == seqn {
        return false;
      }
      Store(buf, seqn, n);
      flushed := recovered.Some?;
      if flushed {
        sent := sent + [recovered.value];
        handed := handed + [Handed(base, Delivery(base, recovered.value))];
        base, baseSeq := base + 1, Inc16(baseSeq);
        FlushLosesNothing(View());
        FlushConsecutive();
      }
    }

    /** Packets of a range of numbers that are still in their slots are released. */
    method ReleaseRange(begin: Seq16, end: Seq16)
      requires Valid() && Placed(View())
      modifies slots
      ensures Valid() && View() == old(View()).(slots := Outside(old(View()).slots, begin, (end - begin) % 65536 + 1))
    {
      hide Slot, Holding, Outside;
      var seqn := begin;
      ghost var n: nat := 0;
      NoneOutside(View().slots, begin);
      while true
        invariant Valid() && n <= (end - begin) % 65536 && seqn == (begin + n) % 65536
        invariant View() == old(View()).(slots := Outside(old(View()).slots, begin, n))
        decreases (end - begin) % 65536 - n
      {
        var i := Slot(seqn, windowSize);
        HoldingAt(slots[..], numbers, i);
        OneOutside(old(View()), begin, n);
        if slots[i].Some? && seqs[i] == seqn {
          Empty(i);
        }
        if seqn == end {
          break;
        }
        seqn := Inc16(seqn);
        n := n + 1;
      }
      LastOfRange(begin, end, n);
    }
  }

  /** Whether an arrival flushes. */
  ghost predicate Flushes(r: Ring, n: int, recovered: Option<Buffer>)
    requires ValidSize(r.size)
  {
    n == r.base || (n > r.base && recovered.Some? && !Duplicate(ForceKeeping(r, n).ring, n))
  }

  /** The comparison that leads to a release. */
  ghost predicate Fires(valid: bool, min: Seq16, base: int) {
    valid && Diff(base % 65536, min) > 0
  }

  predicate InRange(number: int, begin: Seq16, end: Seq16) {
    (number - begin) % 65536 <= (end - begin) % 65536
  }

  /** A number belongs to a group, and the group has expired. */
  predicate Gone(g: Group, base: Seq16, number: int) {
    Expired(g, base) && InRange(number, g.begin, g.end)
  }

  ghost predicate Spent(groups: seq<Group>, base: Seq16, number: int) {
    exists j :: 0 <= j < |groups| && Gone(groups[j], base, number)
  }

  ghost function Freed(slots: map<nat, Delivery>, groups: seq<Group>, base: Seq16): map<nat, Delivery> {
    map i | i in slots && !Spent(groups, base, slots[i].number) :: slots[i]
  }

  /** The ring without the packets of expired groups. */
  ghost function Settled(r: Ring, groups: seq<Group>): Ring {
    r.(slots := Freed(r.slots, groups, r.base % 65536))
  }

  /** The table without expired groups. */
  ghost function Unspent(groups: seq<Group>, base: Seq16): seq<Group> {
    seq(|groups|, i requires 0 <= i < |groups| => if Expired(groups[i], base) then Inactive else groups[i])
  }

  lemma NothingFreed(slots: map<nat, Delivery>, base: Seq16)
    ensures Freed(slots, [], base) == slots
  {
  }

  /** One group more. */
  lemma FreedNext(slots: map<nat, Delivery>, groups: seq<Group>, i: nat, base: Seq16)
    requires i < |groups|
    ensures var before, after := Freed(slots, groups[..i], base), Freed(slots, groups[..i + 1], base);
      after == if Expired(groups[i], base) then
        Outside(before, groups[i].begin, (groups[i].end - groups[i].begin) % 65536 + 1) else before
  {
    forall number ensures Spent(groups[..i + 1], base, number) <==>
      Spent(groups[..i], base, number) || Gone(groups[i], base, number)
    {
      SpentNext(groups, i, base, number);
    }
    hide Spent;
  }

  lemma SpentNext(groups: seq<Group>, i: nat, base: Seq16, number: int)
    requires i < |groups|
    ensures Spent(groups[..i + 1], base, number) <==>
      Spent(groups[..i], base, number) || Gone(groups[i], base, number)
  {
    hide Gone;
    var more, less := groups[..i + 1], groups[..i];
    if j :| 0 <= j < |less| && Gone(less[j], base, number) {
      assert more[j] == less[j];
    }
    if j :| 0 <= j < |more| && Gone(more[j], base, number) {
      assert j < i ==> less[j] == more[j];
    }
    assert more[i] == groups[i];
  }

  lemma FreedFewer(r: Ring, groups: seq<Group>, base: Seq16)
    requires Placed(r)
    ensures Placed(r.(slots := Freed(r.slots, groups, base)))
  {
    hide Spent;
  }

  /** What is left when n numbers from one on are released. */
  ghost function Outside(slots: map<nat, Delivery>, begin: Seq16, n: nat): map<nat, Delivery> {
    map i | i in slots && (slots[i].number - begin) % 65536 >= n :: slots[i]
  }

  lemma NoneOutside(slots: map<nat, Delivery>, begin: Seq16)
    ensures Outside(slots, begin, 0) == slots
  {
  }

  lemma LastOfRange(begin: Seq16, end: Seq16, n: nat)
    requires n <= (end - begin) % 65536 && (begin + n) % 65536 == end
    ensures n == (end - begin) % 65536
  {
  }

  /** Releasing one number more: it can only stand in its own slot. */
  lemma OneOutside(r: Ring, begin: Seq16, n: nat)
    requires Placed(r) && n < 65536
    ensures var i, seqn, left := Slot((begin + n) % 65536, r.size), (begin + n) % 65536, Outside(r.slots, begin, n);
      Outside(r.slots, begin, n + 1) == if i in left && left[i].number % 65536 == seqn then left - {i} else left
  {
    var seqn := (begin + n) % 65536;
    forall i | i in r.slots ensures (r.slots[i].number - begin) % 65536 == n <==> r.slots[i].number % 65536 == seqn {
      SameDistance(r.slots[i].number, begin, n);
      RtpReorder.SlotOfSeq(r.slots[i].number, r.size);
    }
    hide Slot;
    forall i | i in r.slots && r.slots[i].number % 65536 == seqn ensures i == Slot(seqn, r.size) {
      RtpReorder.SlotOfSeq(r.slots[i].number, r.size);
    }
  }

  lemma SameDistance(number: int, begin: Seq16, n: nat)
    requires n < 65536
    ensures (number - begin) % 65536 == n <==> number % 65536 == (begin + n) % 65536
  {
  }
}
