/** The reorder ring buffer with 16-bit sequence numbers, without forward error correction. */
module RtpReorder {
  import opened ReorderModel
  import opened Sequences

  // ----- references -----

  ghost function One(s: Option<Buffer>): multiset<Buffer> {
    if s.Some? then multiset{s.value} else multiset{}
  }

  /** The references held by a stretch of slots. */
  ghost function References(slots: seq<Option<Buffer>>): multiset<Buffer> {
    if slots == [] then multiset{} else References(slots[..|slots| - 1]) + One(slots[|slots| - 1])
  }

  lemma {:induction false} ReferencesUpdate(slots: seq<Option<Buffer>>, i: nat, s: Option<Buffer>)
    requires i < |slots|
    ensures References(slots[i := s]) + One(slots[i]) == References(slots) + One(s)
  {
    hide One;
    var n := |slots| - 1;
    ReferencesLast(slots);
    ReferencesLast(slots[i := s]);
    if i == n {
      assert slots[i := s][..n] == slots[..n];
      Shuffle(References(slots[..n]), One(s), One(slots[i]));
    } else {
      hide References;
      ReferencesUpdate(slots[..n], i, s);
      assert slots[i := s][..n] == slots[..n][i := s];
      Shuffle(References(slots[..n][i := s]), One(slots[n]), One(slots[i]));
      Shuffle(References(slots[..n]), One(slots[n]), One(s));
    }
  }

  lemma ReferencesRelease(slots: seq<Option<Buffer>>, i: nat)
    requires i < |slots| && slots[i].Some?
    ensures slots[i].value in References(slots)
    ensures References(slots[i := None]) == References(slots) - multiset{slots[i].value}
    ensures |References(slots[i := None])| + 1 == |References(slots)|
  {
    ReferencesUpdate(slots, i, None);
    hide References;
    TakeOne(References(slots[i := None]), References(slots), slots[i].value);
  }

  lemma TakeOne(a: multiset<Buffer>, b: multiset<Buffer>, x: Buffer)
    requires a + multiset{x} == b + multiset{}
    ensures x in b && a == b - multiset{x} && |a| + 1 == |b|
  {
    assert b + multiset{} == b;
  }

  lemma ReferencesLast(slots: seq<Option<Buffer>>)
    requires slots != []
    ensures References(slots) == References(slots[..|slots| - 1]) + One(slots[|slots| - 1])
  {}

  lemma Shuffle(a: multiset<Buffer>, x: multiset<Buffer>, y: multiset<Buffer>)
    ensures a + x + y == a + y + x
  {}

  lemma {:induction false} NoReferences(slots: seq<Option<Buffer>>)
    requires forall i :: 0 <= i < |slots| ==> slots[i] == None
    ensures References(slots) == multiset{}
  {
    if slots != [] { NoReferences(slots[..|slots| - 1]); }
  }

  // ----- the ring -----

  /** The number of the window that belongs in slot i. */
  ghost function NumberAt(base: int, size: nat, i: nat): int
    requires ValidSize(size)
  {
    base + Slot(i - base, size)
  }

  lemma NumberAtInWindow(base: int, size: nat, i: nat)
    requires ValidSize(size) && i < size
    ensures base <= NumberAt(base, size, i) < base + size && Slot(NumberAt(base, size, i), size) == i
  {
    if size == 32 {
      SlotFrom32(base, i);
    } else {
      SlotFrom512(base, i);
    }
  }

  lemma SlotFrom32(base: int, i: nat)
    requires i < 32
    ensures (base + (i - base) % 32) % 32 == i
  {
  }

  lemma SlotFrom512(base: int, i: nat)
    requires i < 512
    ensures (base + (i - base) % 512) % 512 == i
  {
  }

  lemma NumberAtSlot(base: int, size: nat, n: int)
    requires ValidSize(size) && base <= n < base + size
    ensures NumberAt(base, size, Slot(n, size)) == n
  {
    if size == 32 {} else {}
  }

  /** A slot can be found from the 16-bit number. */
  lemma SlotOfSeq(n: int, size: nat)
    requires ValidSize(size)
    ensures Slot(n % 65536, size) == Slot(n, size)
  {
    var q, r := n / 65536, n % 65536;
    if size == 32 {
      assert n == 32 * (2048 * q) + r;
    } else {
      assert n == 512 * (128 * q) + r;
    }
  }

  /** What slot i holds for these packets. */
  ghost predicate SlotHolds(s: Option<Buffer>, seqn: Seq16, held: map<int, Buffer>, n: int) {
    s == (if n in held then Some(held[n]) else None) && (n in held ==> seqn == n % 65536)
  }

  /** The ring holds exactly the packets of the window. */
  ghost predicate Ring(slots: seq<Option<Buffer>>, seqs: seq<Seq16>, held: map<int, Buffer>, base: int, size: nat) {
    ValidSize(size) && |slots| == size && |seqs| == size &&
    (forall n :: n in held ==> base <= n < base + size) &&
    forall i :: 0 <= i < size ==> SlotHolds(slots[i], seqs[i], held, NumberAt(base, size, i))
  }

  lemma RingAt(slots: seq<Option<Buffer>>, seqs: seq<Seq16>, held: map<int, Buffer>, base: int, size: nat, n: int)
    requires Ring(slots, seqs, held, base, size) && base <= n < base + size
    ensures SlotHolds(slots[Slot(n, size)], seqs[Slot(n, size)], held, n)
  {
    NumberAtSlot(base, size, n);
  }

  lemma RingStore(slots: seq<Option<Buffer>>, seqs: seq<Seq16>, held: map<int, Buffer>, base: int, size: nat, n: int,
    buf: Buffer)
    requires Ring(slots, seqs, held, base, size) && base <= n < base + size
    ensures Ring(slots[Slot(n, size) := Some(buf)], seqs[Slot(n, size) := n % 65536], held[n := buf], base, size)
  {
    hide Slot, NumberAt;
    forall i | 0 <= i < size ensures NumberAt(base, size, i) == n <==> i == Slot(n, size) {
      NumberAtInWindow(base, size, i);
      NumberAtSlot(base, size, n);
    }
  }

  lemma RingRemove(slots: seq<Option<Buffer>>, seqs: seq<Seq16>, held: map<int, Buffer>, base: int, size: nat, n: int)
    requires Ring(slots, seqs, held, base, size) && base <= n < base + size
    ensures Ring(slots[Slot(n, size) := None], seqs, held - {n}, base, size)
  {
    hide Slot, NumberAt;
    forall i | 0 <= i < size ensures NumberAt(base, size, i) == n <==> i == Slot(n, size) {
      NumberAtInWindow(base, size, i);
      NumberAtSlot(base, size, n);
    }
  }

  /** The ring does not depend on where the window starts, as long as all packets are inside. */
  lemma RingRebase(slots: seq<Option<Buffer>>, seqs: seq<Seq16>, held: map<int, Buffer>, base: int, size: nat,
    base': int)
    requires Ring(slots, seqs, held, base, size)
    requires forall n :: n in held ==> base' <= n < base' + size
    ensures Ring(slots, seqs, held, base', size)
  {
    hide Slot, NumberAt;
    forall i | 0 <= i < size ensures SlotHolds(slots[i], seqs[i], held, NumberAt(base', size, i)) {
      var n, n' := NumberAt(base, size, i), NumberAt(base', size, i);
      NumberAtInWindow(base, size, i);
      NumberAtInWindow(base', size, i);
      if n in held { NumberAtSlot(base', size, n); }
      if n' in held { NumberAtSlot(base, size, n'); }
    }
  }

  /** A slot is taken exactly when some packet held is congruent to the number. */
  lemma RingTaken(slots: seq<Option<Buffer>>, seqs: seq<Seq16>, held: map<int, Buffer>, base: int, size: nat, n: int)
    requires Ring(slots, seqs, held, base, size)
    ensures slots[Slot(n, size)].Some? <==> exists k :: k in held && Slot(k, size) == Slot(n, size)
  {
    hide Slot, NumberAt;
    var i := Slot(n, size);
    NumberAtInWindow(base, size, i);
    if k :| k in held && Slot(k, size) == i { NumberAtSlot(base, size, k); }
  }

  ghost function Sizes(d: seq<Delivery>): nat {
    if d == [] then 0 else Sizes(d[..|d| - 1]) + d[|d| - 1].packet.size
  }

  lemma {:induction false} SizesConcat(a: seq<Delivery>, b: seq<Delivery>)
    ensures Sizes(a + b) == Sizes(a) + Sizes(b)
  {
    if b == [] {
      assert a + b == a;
    } else {
      SizesConcat(a, b[..|b| - 1]);
      assert (a + b)[..|a + b| - 1] == a + b[..|b| - 1];
    }
  }

  // ----- the window object -----

  class Reorder {
    var slots: array<Option<Buffer>>
    var seqs: array<Seq16>
    var windowSize: nat
    var baseSeq: Seq16
    var count: Seq16
    var phase: nat

    /** The window on unwrapped numbers, as long as the packets collected first were near each other. */
    ghost var w: Window
    ghost var orderly: bool

    /** References taken and not yet dropped; packets delivered; numbers given up. */
    ghost var refs: multiset<Buffer>
    ghost var delivered: seq<Delivery>
    ghost var lost: nat

    ghost predicate Shape()
      reads this, slots, seqs
    {
      ValidSize(windowSize) && slots.Length == windowSize && seqs.Length == windowSize && phase <= 2 &&
      refs == References(slots[..])
    }

    ghost predicate Tracks()
      reads this, slots, seqs
    {
      w.size == windowSize && w.phase == phase && (phase > 0 ==> w.base % 65536 == baseSeq) && w.count == count &&
      Sound(w) &&
      Ring(slots[..], seqs[..], w.held, w.base, windowSize)
    }

    ghost predicate Valid()
      reads this, slots, seqs
    {
      Shape() && (orderly ==> Tracks()) && (phase == 0 ==> orderly)
    }

    /** Since the window was made, packets went out in strictly increasing order, and every number passed on the way was
      * delivered or counted as lost. */
    ghost predicate Ordered()
      reads this
    {
      orderly ==> InOrder(New(windowSize), Outcome(w, delivered, lost))
    }

    constructor (useFec: bool, ghost near: int)
      ensures Ordered() && w == NewNear(windowSize, near)
      ensures Valid() && fresh(slots) && fresh(seqs) && orderly && phase == 0
      ensures windowSize == (if useFec then 512 else 32) && delivered == [] && lost == 0 && refs == multiset{}
    {
      var size := if useFec then 512 else 32;
      windowSize := size;
      slots := new Option<Buffer>[size](_ => None);
      seqs := new Seq16[size](_ => 0);
      baseSeq, count, phase := 0, 0, 0;
      w := NewNear(size, near);
      orderly, refs, delivered, lost := true, multiset{}, [], 0;
      new;
      NoReferences(slots[..]);
    }

    /** Drop the reference in a slot. */
    method Release(i: nat)
      requires Shape() && i < windowSize && slots[i].Some?
      modifies slots, this`refs
      ensures Shape() && slots[..] == old(slots[..])[i := None]
      ensures refs == old(refs) - multiset{old(slots[i]).value} && old(slots[i]).value in old(refs)
      ensures |refs| < |old(refs)|
    {
      ghost var was := slots[..];
      ReferencesRelease(was, i);
      hide References;
      refs := refs - multiset{slots[i].value};
      slots[i] := None;
      assert slots[..] == was[i := None];
    }

    /** Store a packet in an empty slot, taking a reference. */
    method Keep(i: nat, buf: Buffer, seqn: Seq16)
      requires Shape() && i < windowSize && slots[i].None?
      modifies slots, seqs, this`refs
      ensures Shape() && slots[..] == old(slots[..])[i := Some(buf)] && seqs[..] == old(seqs[..])[i := seqn]
      ensures refs == old(refs) + multiset{buf}
    {
      ghost var was := slots[..];
      ReferencesUpdate(was, i, Some(buf));
      refs := refs + multiset{buf};
      slots[i] := Some(buf);
      seqs[i] := seqn;
      assert slots[..] == was[i := Some(buf)];
    }

    /** Hand one packet to the shared source, which reports its size. */
    method Deliver(buf: Buffer) returns (bytes: nat)
      modifies this`delivered
      ensures delivered == old(delivered) + [Delivery(w.base, buf)] && bytes == buf.size
    {
      delivered := delivered + [Delivery(w.base, buf)];
      bytes := buf.size;
    }

    /** Hand over the packet at the base and move on. */
    method PassBase(i: nat) returns (bytes: nat)
      requires Valid() && (orderly ==> phase == 2) && i == Slot(baseSeq, windowSize) && slots[i].Some?
      modifies this`w, this`refs, this`delivered, this`baseSeq, this`count, slots
      ensures Valid() && |refs| < |old(refs)|
      ensures baseSeq == Inc16(old(baseSeq)) && count == Dec16(old(count))
      ensures orderly ==> old(w).base in old(w).held && w == Popped(old(w)) && bytes == old(w).held[old(w).base].size
      ensures orderly ==> delivered == old(delivered) + [Delivery(old(w).base, old(w).held[old(w).base])]
    {
      hide Ring, References, Slot;
      if orderly {
        BaseSlot();
        RemoveBase();
      }
      bytes := Deliver(slots[i].value);
      Release(i);
      baseSeq := Inc16(baseSeq);
      count := Dec16(count);
      if orderly {
        w := Popped(w);
      }
    }

    /** Hand over consecutive packets from the base on; stop at a hole. */
    method FlushConsecutive() returns (bytes: nat)
      requires Valid() && (orderly ==> phase == 2)
      modifies this`w, this`refs, this`delivered, this`baseSeq, this`count, slots
      ensures Valid()
      ensures orderly ==> w == Flush(old(w)).w && delivered == old(delivered) + Flush(old(w)).delivered
      ensures orderly ==> bytes == Sizes(Flush(old(w)).delivered)
    {
      hide Ring, References, Slot, Flush, Popped;
      bytes := 0;
      ghost var all := Flush(w);
      while count > 0
        invariant Valid()
        invariant orderly ==> all.w == Flush(w).w && old(delivered) + all.delivered == delivered + Flush(w).delivered
        invariant orderly ==> bytes + Sizes(Flush(w).delivered) == Sizes(all.delivered)
        decreases |refs|
      {
        var i := Slot(baseSeq, windowSize);
        if orderly { BaseSlot(); }
        if slots[i].None? {
          break;
        }
        if orderly { FlushStep(w); }
        var n := PassBase(i);
        bytes := bytes + n;
      }
      if orderly { FlushEnd(w); }
    }

    /** Make room for a packet beyond the window. */
    method ForceFlushUntil(target: Seq16, ghost n: int) returns (bytes: nat)
      requires Valid() && phase == 2 && (orderly ==> n == Unwrap(w, target))
      modifies this`w, this`refs, this`delivered, this`lost, this`baseSeq, this`count, slots
      ensures Valid() && Diff(target, baseSeq) < windowSize
      ensures orderly ==> w == ForceFlush(old(w), n).w && lost == old(lost) + ForceFlush(old(w), n).lost
      ensures orderly ==> delivered == old(delivered) + ForceFlush(old(w), n).delivered
      ensures orderly ==> bytes == Sizes(ForceFlush(old(w), n).delivered)
    {
      hide Ring, References, Slot, ForceFlush, Popped, Diff, Unwrap, Shape, Tracks, Continues;
      bytes := 0;
      ghost var all := ForceFlush(w, n);
      ContinuesStart(all, delivered, lost);
      while Diff(target, baseSeq) >= windowSize
        invariant Valid() && phase == 2 && (orderly ==> n == Unwrap(w, target))
        invariant orderly ==> Continues(all, ForceFlush(w, n), old(delivered), delivered, old(lost), lost, bytes)
        decreases Diff(target, baseSeq)
      {
        Extent();
        var i := Slot(baseSeq, windowSize);
        if orderly {
          Distance(target);
          BaseSlot();
          ContinuesNext(all, w, n, old(delivered), delivered, old(lost), lost, bytes);
          UnwrapNext(w, target);
        }
        DiffNext(target, baseSeq);
        if slots[i].Some? {
          var b := PassBase(i);
          bytes := bytes + b;
        } else {
          SkipBase();
        }
      }
      if orderly {
        Distance(target);
        ContinuesEnd(all, w, n, old(delivered), delivered, old(lost), lost, bytes);
      }
    }

    /** Put a packet into a slot, dropping what was there. */
    method Fill(i: nat, buf: Buffer, seqn: Seq16)
      requires Shape() && i < windowSize
      modifies slots, seqs, this`refs
      ensures Shape() && slots[..] == old(slots[..])[i := Some(buf)] && seqs[..] == old(seqs[..])[i := seqn]
    {
      hide References;
      if slots[i].Some? {
        Release(i);
      }
      Keep(i, buf, seqn);
    }

    /** Store packet number n of the window, in place of whatever the slot holds. */
    method Replace(buf: Buffer, seqn: Seq16, ghost n: int)
      requires Valid() && phase == 2 && (orderly ==> seqn == n % 65536 && w.base <= n < w.base + windowSize)
      modifies slots, seqs, this`refs, this`w, this`count
      ensures Valid() && count == Inc16(old(count))
      ensures orderly ==> w == old(w).(held := old(w).held[n := buf], count := Inc16(old(w).count))
    {
      hide Ring, References, Slot;
      if orderly {
        SlotOfSeq(n, windowSize);
        RingStore(slots[..], seqs[..], w.held, w.base, windowSize, n, buf);
      }
      Fill(Slot(seqn, windowSize), buf, seqn);
      count := Inc16(count);
      if orderly {
        w := w.(held := w.held[n := buf], count := Inc16(w.count));
      }
    }

    /** The very first packet. */
    method First(buf: Buffer, seqn: Seq16)
      requires Valid() && phase == 0
      modifies this`w, this`refs, this`baseSeq, this`count, this`phase, slots, seqs
      ensures Valid() && phase == 1
      ensures var n := Unwrap(old(w), seqn); w == Window(windowSize, 1, n, map[n := buf], 1)
    {
      hide Ring, References, Slot, Unwrap;
      ghost var n := Unwrap(w, seqn);
      UnwrapSlot(w, seqn);
      FirstRing(slots[..], seqs[..], w.base, windowSize, n, buf);
      baseSeq := seqn;
      phase := 1;
      Fill(Slot(seqn, windowSize), buf, seqn);
      count := 1;
      w := Window(windowSize, 1, n, map[n := buf], 1);
    }

    /** While collecting: keep the packet if its slot is empty, and let the base follow the smallest number. */
    method CollectOne(buf: Buffer, seqn: Seq16)
      requires Valid() && phase == 1
      modifies this`w, this`refs, this`baseSeq, this`count, this`orderly, slots, seqs
      ensures Valid() && orderly == (old(orderly) && ValidSize(old(w).size) && Orderly(old(w), seqn))
      ensures orderly ==> w == Collect(old(w), Unwrap(old(w), seqn), buf)
    {
      hide Ring, References, Slot, Unwrap, Diff, Near, SlotTaken;
      var i := Slot(seqn, windowSize);
      ghost var n := Unwrap(w, seqn);
      if orderly {
        UnwrapSlot(w, seqn);
        RingTaken(slots[..], seqs[..], w.held, w.base, windowSize, n);
        TakenIs(w, n);
      }
      if slots[i].None? {
        if orderly {
          Distance(seqn);
          orderly := Near(w, n);
          if orderly { CollectRing(slots[..], seqs[..], w, n, buf); }
          w := Collect(w, n, buf);
        }
        Keep(i, buf, seqn);
        count := Inc16(count);
        if Diff(seqn, baseSeq) < 0 {
          baseSeq := seqn;
        }
      }
    }

    /** Hand over a packet that is just the next one, without storing it. */
    method PassDirect(buf: Buffer) returns (bytes: nat)
      requires Valid() && phase == 2 && slots[Slot(baseSeq, windowSize)].None?
      modifies this`w, this`delivered, this`baseSeq
      ensures Valid() && bytes == buf.size
      ensures orderly ==> old(w).base !in old(w).held && w == old(w).(base := old(w).base + 1)
      ensures orderly ==> delivered == old(delivered) + [Delivery(old(w).base, buf)]
    {
      hide Ring, References, Slot;
      bytes := Deliver(buf);
      if orderly {
        BaseSlot();
        RingInside(slots[..], seqs[..], w.held, w.base, windowSize);
        RingRebase(slots[..], seqs[..], w.held, w.base, windowSize, w.base + 1);
        w := w.(base := w.base + 1);
      }
      baseSeq := Inc16(baseSeq);
    }

    /** Store a packet ahead of the base, unless the same number is already there. */
    method StoreAhead(buf: Buffer, seqn: Seq16, ghost n: int)
      requires Valid() && phase == 2 && (orderly ==> seqn == n % 65536 && w.base < n < w.base + windowSize)
      modifies slots, seqs, this`refs, this`w, this`count
      ensures Valid()
      ensures orderly ==> w == if n in old(w).held then old(w)
                               else old(w).(held := old(w).held[n := buf], count := Inc16(old(w).count))
    {
      var i := Slot(seqn, windowSize);
      if orderly {
        SlotOfSeq(n, windowSize);
        RingAt(slots[..], seqs[..], w.held, w.base, windowSize, n);
      }
      hide Ring, References, Slot;
      if slots[i].Some? && seqs[i] == seqn {
        return;
      }
      Replace(buf, seqn, n);
    }

    /** A packet in the active phase. */
    method Active(buf: Buffer, seqn: Seq16) returns (bytes: nat)
      requires Valid() && phase == 2
      modifies this`w, this`refs, this`baseSeq, this`count, this`delivered, this`lost, slots, seqs
      ensures Valid()
      ensures orderly ==> Performed(Insert(old(w), seqn, buf), w, old(delivered), delivered, old(lost), lost, bytes)
    {
      hide Ring, References, Slot, Flush, ForceFlush, Diff, Shape, Tracks, Insert, Unwrap;
      Extent();
      ghost var n, before := Unwrap(w, seqn), w;
      if orderly {
        Distance(seqn);
        Mirrors();
      }
      var diff := Diff(seqn, baseSeq);
      if diff == 0 {
        DiffZero(seqn, baseSeq);
        if orderly {
          BaseSlot();
          InsertAtBase(w, seqn, buf);
        }
        if count == 0 && slots[Slot(seqn, windowSize)].None? {
          bytes := PassDirect(buf);
          SizesOne(Delivery(before.base, buf));
          return;
        }
        Replace(buf, seqn, n);
        bytes := FlushConsecutive();
        return;
      }
      if diff < 0 {
        if orderly { InsertLate(w, seqn, buf); }
        return 0;
      }
      if orderly { InsertAhead(w, seqn, buf); }
      bytes := 0;
      if diff >= windowSize {
        bytes := ForceFlushUntil(seqn, n);
      } else if orderly {
        ForceFlushEnd(w, n);
      }
      StoreAhead(buf, seqn, n);
    }

    lemma Mirrors()
      requires Valid() && orderly
      ensures w.count == count && (phase > 0 ==> w.base % 65536 == baseSeq) && w.phase == phase &&
        w.size == windowSize && Sound(w)
    {}

    /** A packet while collecting; enough of them start delivery. */
    method CollectAndStart(buf: Buffer, seqn: Seq16) returns (bytes: nat)
      requires Valid() && phase == 1
      modifies this`w, this`refs, this`baseSeq, this`count, this`delivered, this`phase, this`orderly, slots, seqs
      ensures Valid() && orderly == (old(orderly) && ValidSize(old(w).size) && Orderly(old(w), seqn))
      ensures orderly ==> Performed(Insert(old(w), seqn, buf), w, old(delivered), delivered, lost, lost, bytes)
    {
      hide Ring, References, Slot, Flush, Unwrap, Insert, Orderly, Collect;
      if orderly {
        Mirrors();
        InsertCollecting(w, seqn, buf);
      }
      CollectOne(buf, seqn);
      bytes := 0;
      if count >= INIT_COLLECT {
        phase := 2;
        w := w.(phase := 2);
        bytes := FlushConsecutive();
      }
    }

    /** One packet arrives. */
    method InsertPacket(buf: Buffer, seqn: Seq16) returns (bytes: nat)
      requires Valid() && Ordered()
      modifies this`w, this`refs, this`baseSeq, this`count, this`delivered, this`lost, this`phase, this`orderly, slots,
        seqs
      ensures Valid() && orderly == (old(orderly) && ValidSize(old(w).size) && Orderly(old(w), seqn))
      ensures orderly ==> Performed(Insert(old(w), seqn, buf), w, old(delivered), delivered, old(lost), lost, bytes)
      ensures Ordered()
    {
      hide Ring, References, Flush, ForceFlush, Unwrap, InOrder, Insert, Orderly;
      if orderly {
        Mirrors();
        if Orderly(w, seqn) { StepInOrder(New(windowSize), Outcome(w, delivered, lost), seqn, buf); }
      }
      if phase == 0 {
        InsertFirst(w, seqn, buf);
        First(buf, seqn);
        bytes := 0;
      } else if phase == 1 {
        bytes := CollectAndStart(buf, seqn);
      } else {
        if orderly { ActiveOrderly(w, seqn); }
        bytes := Active(buf, seqn);
      }
    }

    /** The packet held under a 16-bit number. */
    method Get(seqn: Seq16) returns (r: Option<Buffer>)
      requires Valid()
      ensures orderly ==> (r.Some? <==> exists n :: n in w.held && n % 65536 == seqn)
      ensures orderly ==> forall n :: n in w.held && n % 65536 == seqn ==> r == Some(w.held[n])
    {
      hide Ring, References, Slot;
      var i := Slot(seqn, windowSize);
      ghost var n := Unwrap(w, seqn);
      if orderly {
        forall k | k in w.held && k % 65536 == seqn ensures SlotHolds(slots[i], seqs[i], w.held, k) && seqs[i] == seqn {
          SlotOfSeq(k, windowSize);
          RingInside(slots[..], seqs[..], w.held, w.base, windowSize);
          RingAt(slots[..], seqs[..], w.held, w.base, windowSize, k);
        }
        RingSome(slots[..], seqs[..], w.held, w.base, windowSize, i);
      }
      r := if slots[i].Some? && seqs[i] == seqn then slots[i] else None;
    }

    /** Drop every reference. */
    method Cleanup()
      requires Valid()
      modifies this`refs, this`count, this`phase, slots
      ensures refs == multiset{} && count == 0 && phase == 0
    {
      hide References;
      for i := 0 to windowSize
        invariant Shape() && forall j :: 0 <= j < i ==> slots[j].None?
      {
        if slots[i].Some? {
          Release(i);
        }
      }
      NoReferences(slots[..]);
      count, phase := 0, 0;
    }

    /** Continue in a new window where another stands: its numbers and packets are taken over slot by slot. `views`
      * tells for which slots a view of the packet can be had; without one the slot stays empty and the copy has
      * failed. */
    method CopyFrom(shared: Reorder, views: nat -> bool) returns (ok: bool)
      requires Valid() && phase == 0 && shared.Valid() && shared.windowSize == windowSize && shared.slots != slots &&
        shared.seqs != seqs
      requires forall i :: 0 <= i < slots.Length ==> slots[i].None?
      modifies this`w, this`refs, this`baseSeq, this`count, this`delivered, this`lost, this`phase, this`orderly, slots,
        seqs
      ensures ok == AllViewed(shared.slots[..], views)
      ensures ok ==> Valid() && w == shared.w && orderly == shared.orderly && refs == shared.refs
      ensures ok ==> (phase, baseSeq, count) == (shared.phase, shared.baseSeq, shared.count)
      ensures ok ==> delivered == shared.delivered && lost == shared.lost && (shared.Ordered() ==> Ordered())
      ensures refs == References(slots[..]) && slots[..] == Viewed(shared.slots[..], views)
    {
      hide *;
      Extents(shared);
      ok := CopySlots(shared.slots[..], shared.seqs[..], views);
      baseSeq, phase, count, w, orderly, delivered, lost :=
        shared.baseSeq, shared.phase, shared.count, shared.w, shared.orderly, shared.delivered, shared.lost;
      SameShape(shared);
      if ok {
        Copied(shared);
      }
    }

    lemma Extents(shared: Reorder)
      requires Valid() && shared.Valid() && windowSize == shared.windowSize
      ensures Shape() && ValidSize(windowSize) &&
        slots.Length == seqs.Length == shared.slots.Length == shared.seqs.Length == windowSize
    {
    }

    lemma SameShape(shared: Reorder)
      requires ValidSize(windowSize) && slots.Length == seqs.Length == windowSize && refs == References(slots[..]) &&
        phase == shared.phase && shared.Valid()
      ensures Shape()
    {
    }

    /** Windows with the same fields and slots stand in the same place. */
    lemma Copied(shared: Reorder)
      requires shared.Valid() && Shape() &&
        (phase, baseSeq, count, windowSize) == (shared.phase, shared.baseSeq, shared.count, shared.windowSize)
      requires w == shared.w && orderly == shared.orderly && delivered == shared.delivered && lost == shared.lost
      requires slots[..] == shared.slots[..] && seqs[..] == shared.seqs[..]
      ensures Valid() && refs == shared.refs && (shared.Ordered() ==> Ordered())
    {
      hide References, Ring, InOrder, Slot, Sound;
    }

    method CopySlots(from: seq<Option<Buffer>>, numbers: seq<Seq16>, views: nat -> bool) returns (ok: bool)
      requires Shape() && |from| == |numbers| == windowSize && forall i :: 0 <= i < slots.Length ==> slots[i].None?
      modifies this`refs, slots, seqs
      ensures Shape() && refs == References(slots[..]) && seqs[..] == numbers
      ensures ok == AllViewed(from, views) && slots[..] == Viewed(from, views) && (ok ==> slots[..] == from)
    {
      hide References;
      ok := true;
      for i := 0 to windowSize
        invariant Shape() && |from| == |numbers| == windowSize
        invariant ok <==> forall j :: 0 <= j < i && from[j].Some? ==> views(j)
        invariant seqs[..i] == numbers[..i]
        invariant forall j :: 0 <= j < i ==> slots[j] == if from[j].Some? && views(j) then from[j] else None
        invariant forall j :: i <= j < windowSize ==> slots[j].None?
      {
        CopySlot(i, from[i], numbers[i], views(i));
        ok := ok && (from[i].Some? ==> views(i));
      }
    }

    method CopySlot(i: nat, slot: Option<Buffer>, seqn: Seq16, view: bool)
      requires Shape() && i < windowSize && slots[i].None?
      modifies slots, seqs, this`refs
      ensures Shape() && seqs[..] == old(seqs[..])[i := seqn]
      ensures slots[..] == old(slots[..])[i := if slot.Some? && view then slot else None]
    {
      hide References;
      if slot.Some? && view {
        Keep(i, slot.value, seqn);
      } else {
        seqs[i] := seqn;
        assert slots[..] == old(slots[..])[i := None];
      }
    }

    lemma Extent()
      requires Valid()
      ensures ValidSize(windowSize) && slots.Length == windowSize
    {}

    /** The 16-bit distance is the distance of the unwrapped numbers. */
    lemma Distance(target: Seq16)
      requires Valid() && orderly && phase > 0
      ensures Diff(target, baseSeq) == Unwrap(w, target) - w.base && w.size == windowSize
    {
      DiffMod(target, w.base);
    }

    /** Give up the number at the base. */
    method SkipBase()
      requires Valid() && phase == 2 && slots[Slot(baseSeq, windowSize)].None?
      modifies this`w, this`lost, this`baseSeq
      ensures Valid() && baseSeq == Inc16(old(baseSeq))
      ensures orderly ==> old(w).base !in old(w).held && w == old(w).(base := old(w).base + 1) && lost == old(lost) + 1
    {
      hide Ring, References, Slot;
      if orderly {
        BaseSlot();
        assert Ring(slots[..], seqs[..], w.held, w.base + 1, windowSize) by {
          RingInside(slots[..], seqs[..], w.held, w.base, windowSize);
          RingRebase(slots[..], seqs[..], w.held, w.base, windowSize, w.base + 1);
        }
        w := w.(base := w.base + 1);
        lost := lost + 1;
      }
      baseSeq := Inc16(baseSeq);
    }

    lemma BaseSlot()
      requires Valid() && orderly && phase > 0
      ensures Slot(baseSeq, windowSize) == Slot(w.base, windowSize)
      ensures slots[Slot(baseSeq, windowSize)] == if w.base in w.held then Some(w.held[w.base]) else None
    {
      SlotOfSeq(w.base, windowSize);
      RingAt(slots[..], seqs[..], w.held, w.base, windowSize, w.base);
    }

    lemma RemoveBase()
      requires Valid() && orderly && w.base in w.held
      ensures Ring(slots[..][Slot(w.base, windowSize) := None], seqs[..], w.held - {w.base}, w.base + 1, windowSize)
    {
      RingRemove(slots[..], seqs[..], w.held, w.base, windowSize, w.base);
      RingRebase(slots[..][Slot(w.base, windowSize) := None], seqs[..], w.held - {w.base}, w.base, windowSize,
        w.base + 1);
    }
  }

  /** What can be viewed of these slots, and whether that is everything. */
  ghost function Viewed(slots: seq<Option<Buffer>>, views: nat -> bool): seq<Option<Buffer>> {
    seq(|slots|, i requires 0 <= i < |slots| => if views(i) then slots[i] else None)
  }

  ghost predicate AllViewed(slots: seq<Option<Buffer>>, views: nat -> bool) {
    forall i :: 0 <= i < |slots| && slots[i].Some? ==> views(i)
  }

  /** The window without the packet at its base, moved on by one. */
  ghost function Popped(w: Window): Window {
    w.(held := w.held - {w.base}, base := w.base + 1, count := Dec16(w.count))
  }

  lemma FlushStep(w: Window)
    requires w.count != 0 && w.base in w.held
    ensures Flush(w).w == Flush(Popped(w)).w
    ensures Flush(w).delivered == [Delivery(w.base, w.held[w.base])] + Flush(Popped(w)).delivered
    ensures Sizes(Flush(w).delivered) == w.held[w.base].size + Sizes(Flush(Popped(w)).delivered)
  {
    SizesConcat([Delivery(w.base, w.held[w.base])], Flush(Popped(w)).delivered);
    assert [Delivery(w.base, w.held[w.base])][..0] == [];
  }

  lemma FlushEnd(w: Window)
    requires w.count == 0 || w.base !in w.held
    ensures Flush(w) == Outcome(w, [], 0)
  {}

  lemma RingInside(slots: seq<Option<Buffer>>, seqs: seq<Seq16>, held: map<int, Buffer>, base: int, size: nat)
    requires Ring(slots, seqs, held, base, size)
    ensures forall n :: n in held ==> base <= n < base + size
  {}

  lemma ForceFlushStep(w: Window, n: int)
    requires n - w.base >= w.size
    ensures w.base in w.held ==>
              var r := ForceFlush(Popped(w), n);
              ForceFlush(w, n) == Outcome(r.w, [Delivery(w.base, w.held[w.base])] + r.delivered, r.lost)
              && Sizes(ForceFlush(w, n).delivered) == w.held[w.base].size + Sizes(r.delivered)
    ensures w.base !in w.held ==>
              var r := ForceFlush(w.(base := w.base + 1), n);
              ForceFlush(w, n) == Outcome(r.w, r.delivered, r.lost + 1)
  {
    if w.base in w.held {
      SizesConcat([Delivery(w.base, w.held[w.base])], ForceFlush(Popped(w), n).delivered);
      assert [Delivery(w.base, w.held[w.base])][..0] == [];
    }
  }

  lemma ForceFlushEnd(w: Window, n: int)
    requires n - w.base < w.size
    ensures ForceFlush(w, n) == Outcome(w, [], 0)
  {}

  /** Part of what was to be done is done, and the rest remains. */
  ghost predicate Continues(all: Outcome, rest: Outcome, delivered0: seq<Delivery>, delivered: seq<Delivery>,
    lost0: nat, lost: nat, bytes: nat) {
    all.w == rest.w && lost0 + all.lost == lost + rest.lost &&
    delivered0 + all.delivered == delivered + rest.delivered &&
    bytes + Sizes(rest.delivered) == Sizes(all.delivered)
  }

  lemma ContinuesStart(all: Outcome, delivered: seq<Delivery>, lost: nat)
    ensures Continues(all, all, delivered, delivered, lost, lost, 0)
  {
  }

  lemma ContinuesNext(all: Outcome, w: Window, n: int, delivered0: seq<Delivery>, delivered: seq<Delivery>, lost0: nat,
    lost: nat, bytes: nat)
    requires n - w.base >= w.size && Continues(all, ForceFlush(w, n), delivered0, delivered, lost0, lost, bytes)
    ensures w.base in w.held ==>
      Continues(all, ForceFlush(Popped(w), n), delivered0, delivered + [Delivery(w.base, w.held[w.base])], lost0, lost,
        bytes + w.held[w.base].size)
    ensures w.base !in w.held ==>
      Continues(all, ForceFlush(w.(base := w.base + 1), n), delivered0, delivered, lost0, lost + 1, bytes)
  {
    ForceFlushStep(w, n);
    hide ForceFlush, Sizes;
  }

  lemma ContinuesEnd(all: Outcome, w: Window, n: int, delivered0: seq<Delivery>, delivered: seq<Delivery>, lost0: nat,
    lost: nat, bytes: nat)
    requires n - w.base < w.size && Continues(all, ForceFlush(w, n), delivered0, delivered, lost0, lost, bytes)
    ensures w == all.w && lost == lost0 + all.lost && delivered == delivered0 + all.delivered &&
      bytes == Sizes(all.delivered)
  {
  }

  /** Moving the base up by one keeps the unwrapped number of a packet well ahead. */
  lemma UnwrapNext(w: Window, target: Seq16)
    requires ValidSize(w.size) && Unwrap(w, target) - w.base >= w.size
    ensures Unwrap(w.(base := w.base + 1), target) == Unwrap(w, target)
    ensures Unwrap(Popped(w), target) == Unwrap(w, target)
  {
    DiffShift(target, w.base);
    hide Diff;
  }

  lemma DiffShift(a: int, b: int)
    requires Diff(a, b) > 0
    ensures Diff(a, b + 1) == Diff(a, b) - 1
  {
    var q, d := (a - b) / 65536, (a - b) % 65536;
    assert a - (b + 1) == 65536 * q + (d - 1);
    assert (a - (b + 1)) % 65536 == d - 1;
  }

  lemma DiffMod(a: int, b: int)
    ensures Diff(a, b % 65536) == Diff(a, b)
  {}

  lemma DiffNext(a: Seq16, b: Seq16)
    requires Diff(a, b) > 0
    ensures Diff(a, Inc16(b)) == Diff(a, b) - 1
  {}

  lemma DiffZero(a: Seq16, b: Seq16)
    ensures Diff(a, b) == 0 <==> a == b
  {}

  lemma CollectRing(slots: seq<Option<Buffer>>, seqs: seq<Seq16>, w: Window, n: int, buf: Buffer)
    requires Collecting(w) && Ring(slots, seqs, w.held, w.base, w.size) && !SlotTaken(w, n) && Near(w, n)
    ensures var c := Collect(w, n, buf);
            Ring(slots[Slot(n, w.size) := Some(buf)], seqs[Slot(n, w.size) := n % 65536], c.held, c.base, w.size)
            && Collecting(c)
  {
    hide Ring, Slot;
    var c := Collect(w, n, buf);
    CollectExactly(w, n, buf);
    RingRebase(slots, seqs, w.held, w.base, w.size, c.base);
    RingStore(slots, seqs, w.held, c.base, w.size, n, buf);
  }

  /** The object did what the window model prescribes. */
  ghost predicate Performed(r: Outcome, w: Window, delivered0: seq<Delivery>, delivered: seq<Delivery>, lost0: nat,
    lost: nat, bytes: nat) {
    w == r.w && delivered == delivered0 + r.delivered && lost == lost0 + r.lost && bytes == Sizes(r.delivered)
  }

  lemma SizesOne(d: Delivery)
    ensures Sizes([d]) == d.packet.size
  {
    assert [d][..0] == [];
  }

  lemma InsertAtBase(w: Window, seqn: Seq16, buf: Buffer)
    requires Sound(w) && w.phase == 2 && Unwrap(w, seqn) == w.base
    ensures Flush(w.(held := w.held[w.base := buf], count := Inc16(w.count))).lost == 0
    ensures Insert(w, seqn, buf) ==
              if w.count == 0 && w.base !in w.held then Outcome(w.(base := w.base + 1), [Delivery(w.base, buf)], 0)
              else Flush(w.(held := w.held[w.base := buf], count := Inc16(w.count)))
    ensures seqn == w.base % 65536
  {
    FlushAdvances(w.(held := w.held[w.base := buf], count := Inc16(w.count)));
    hide Flush, ForceFlush;
  }

  lemma InsertLate(w: Window, seqn: Seq16, buf: Buffer)
    requires ValidSize(w.size) && w.phase == 2 && Unwrap(w, seqn) < w.base
    ensures Insert(w, seqn, buf) == Outcome(w, [], 0)
  {
    hide Flush, ForceFlush;
  }

  lemma InsertAhead(w: Window, seqn: Seq16, buf: Buffer)
    requires Sound(w) && w.phase == 2 && Unwrap(w, seqn) > w.base
    ensures var n, r := Unwrap(w, seqn), ForceFlush(w, Unwrap(w, seqn));
            && Insert(w, seqn, buf) ==
              (if n in r.w.held then r
               else Outcome(r.w.(held := r.w.held[n := buf], count := Inc16(r.w.count)), r.delivered, r.lost))
            && r.w.base < n < r.w.base + w.size && seqn == n % 65536
  {
    ForceFlushAdvances(w, Unwrap(w, seqn));
    hide Flush, ForceFlush;
  }

  lemma FirstRing(slots: seq<Option<Buffer>>, seqs: seq<Seq16>, base: int, size: nat, n: int, buf: Buffer)
    requires Ring(slots, seqs, map[], base, size)
    ensures Ring(slots[Slot(n, size) := Some(buf)], seqs[Slot(n, size) := n % 65536], map[n := buf], n, size)
  {
    hide Slot, NumberAt, SlotHolds;
    assert ValidSize(size) && |slots| == |seqs| == size;
    hide Ring;
    RingRebase(slots, seqs, map[], base, size, n);
    RingStore(slots, seqs, map[], n, size, n, buf);
    assert map[][n := buf] == map[n := buf];
  }

  lemma UnwrapSlot(w: Window, seqn: Seq16)
    requires ValidSize(w.size)
    ensures Slot(seqn, w.size) == Slot(Unwrap(w, seqn), w.size) && Unwrap(w, seqn) % 65536 == seqn
  {
    hide Slot;
    SlotOfSeq(Unwrap(w, seqn), w.size);
  }

  lemma TakenIs(w: Window, n: int)
    requires ValidSize(w.size)
    ensures SlotTaken(w, n) <==> exists k :: k in w.held && Slot(k, w.size) == Slot(n, w.size)
  {}

  lemma ActiveOrderly(w: Window, seqn: Seq16)
    requires ValidSize(w.size) && w.phase == 2
    ensures Orderly(w, seqn)
  {}

  lemma InsertFirst(w: Window, seqn: Seq16, buf: Buffer)
    requires ValidSize(w.size) && w.phase == 0
    ensures Orderly(w, seqn)
    ensures var n := Unwrap(w, seqn); Insert(w, seqn, buf) == Outcome(Window(w.size, 1, n, map[n := buf], 1), [], 0)
  {}

  lemma InsertCollecting(w: Window, seqn: Seq16, buf: Buffer)
    requires Sound(w) && w.phase == 1
    ensures var c := Collect(w, Unwrap(w, seqn), buf);
            && c.phase == 1
            && Insert(w, seqn, buf) == (if c.count >= INIT_COLLECT then Flush(c.(phase := 2)) else Outcome(c, [], 0))
            && (Orderly(w, seqn) ==> Flush(c.(phase := 2)).lost == 0)
  {
    hide Flush;
    CollectExactly(w, Unwrap(w, seqn), buf);
    var c := Collect(w, Unwrap(w, seqn), buf);
    if Orderly(w, seqn) { FlushAdvances(c.(phase := 2)); }
  }

  /** What stands in a slot is held, under the number stored beside it. */
  lemma RingSome(slots: seq<Option<Buffer>>, seqs: seq<Seq16>, held: map<int, Buffer>, base: int, size: nat, i: nat)
    requires Ring(slots, seqs, held, base, size) && i < size
    ensures slots[i].Some? ==> var n := NumberAt(base, size, i);
      n in held && held[n] == slots[i].value && n % 65536 == seqs[i]
  {
    hide NumberAt;
  }
}
