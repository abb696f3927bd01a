/** What arrives are 16-bit numbers; which of the numbers 65536 apart each one is taken for is a matter of naming. */
module Epochs {

  import opened ReorderModel

  /** The same packets, under numbers d higher. */
  ghost predicate SameHeld(a: map<int, Buffer>, b: map<int, Buffer>, d: int) {
    (forall n :: n in a ==> n + d in b && b[n + d] == a[n]) && forall n :: n in b ==> n - d in a
  }

  /** The same window, with all numbers d higher. */
  ghost predicate Same(w: Window, v: Window, d: int) {
    v.size == w.size && v.phase == w.phase && v.base == w.base + d && v.count == w.count && SameHeld(w.held, v.held, d)
  }

  ghost predicate SameDeliveries(a: seq<Delivery>, b: seq<Delivery>, d: int) {
    |a| == |b| && forall i :: 0 <= i < |a| ==> b[i] == Delivery(a[i].number + d, a[i].packet)
  }

  ghost predicate SameOutcome(o: Outcome, p: Outcome, d: int) {
    Same(o.w, p.w, d) && SameDeliveries(o.delivered, p.delivered, d) && o.lost == p.lost
  }

  lemma HeldAt(a: map<int, Buffer>, b: map<int, Buffer>, d: int, n: int)
    requires SameHeld(a, b, d)
    ensures (n in a <==> n + d in b) && (n in a ==> b[n + d] == a[n])
  {
    if n + d in b {
      assert n + d - d == n;
    }
  }

  lemma HeldLess(a: map<int, Buffer>, b: map<int, Buffer>, d: int, n: int)
    requires SameHeld(a, b, d)
    ensures SameHeld(a - {n}, b - {n + d}, d)
  {
  }

  lemma HeldMore(a: map<int, Buffer>, b: map<int, Buffer>, d: int, n: int, p: Buffer)
    requires SameHeld(a, b, d)
    ensures SameHeld(a[n := p], b[n + d := p], d)
  {
  }

  lemma SameSlots(n: int, d: int, size: nat)
    requires ValidSize(size) && d % 65536 == 0
    ensures Slot(n + d, size) == Slot(n, size)
  {
    var k := d / 65536;
    assert d == 65536 * k;
    if size == 32 {
      Multiple32(n, 2048 * k);
    } else {
      Multiple512(n, 128 * k);
    }
  }

  lemma Multiple32(n: int, k: int)
    ensures (n + 32 * k) % 32 == n % 32
  {
  }

  lemma Multiple512(n: int, k: int)
    ensures (n + 512 * k) % 512 == n % 512
  {
  }

  lemma SameUnwrap(w: Window, v: Window, seqn: Seq16, d: int)
    requires d % 65536 == 0 && v.base == w.base + d
    ensures Unwrap(v, seqn) == Unwrap(w, seqn) + d
  {
  }

  lemma {:induction false} SameFlush(w: Window, v: Window, d: int)
    requires Same(w, v, d)
    ensures SameOutcome(Flush(w), Flush(v), d)
    decreases |w.held|
  {
    hide SameHeld;
    HeldAt(w.held, v.held, d, w.base);
    if w.count != 0 && w.base in w.held {
      HeldLess(w.held, v.held, d, w.base);
      SameFlush(Dropped(w), Dropped(v), d);
    }
  }

  lemma {:induction false} SameForceFlush(w: Window, v: Window, target: int, d: int)
    requires Same(w, v, d)
    ensures SameOutcome(ForceFlush(w, target), ForceFlush(v, target + d), d)
    decreases target - w.base
  {
    hide SameHeld;
    HeldAt(w.held, v.held, d, w.base);
    if target - w.base >= w.size {
      if w.base in w.held {
        HeldLess(w.held, v.held, d, w.base);
        SameForceFlush(Dropped(w), Dropped(v), target, d);
      } else {
        SameForceFlush(w.(base := w.base + 1), v.(base := v.base + 1), target, d);
      }
    }
  }

  lemma SameTaken(w: Window, v: Window, n: int, d: int)
    requires ValidSize(w.size) && d % 65536 == 0 && Same(w, v, d)
    ensures SlotTaken(w, n) <==> SlotTaken(v, n + d)
  {
    hide Slot, SameHeld;
    SameSlots(n, d, w.size);
    if k :| k in w.held && Slot(k, w.size) == Slot(n, w.size) {
      HeldAt(w.held, v.held, d, k);
      SameSlots(k, d, w.size);
      assert k + d in v.held;
    }
    if k :| k in v.held && Slot(k, w.size) == Slot(n + d, w.size) {
      HeldAt(w.held, v.held, d, k - d);
      SameSlots(k - d, d, w.size);
      assert k - d in w.held;
    }
  }

  lemma SameInsert(w: Window, v: Window, seqn: Seq16, p: Buffer, d: int)
    requires ValidSize(w.size) && d % 65536 == 0 && Same(w, v, d)
    ensures SameOutcome(Insert(w, seqn, p), Insert(v, seqn, p), d)
  {
    hide Flush, ForceFlush, SlotTaken, Unwrap, SameHeld;
    var n := Unwrap(w, seqn);
    SameUnwrap(w, v, seqn, d);
    HeldAt(w.held, v.held, d, n);
    HeldMore(w.held, v.held, d, n, p);
    if w.phase == 0 {
      FirstSame(n, p, d);
    } else if w.phase == 1 {
      SameTaken(w, v, n, d);
      SameFlush(Collect(w, n, p).(phase := 2), Collect(v, n + d, p).(phase := 2), d);
    } else if n == w.base {
      SameFlush(w.(held := w.held[n := p], count := Inc16(w.count)),
        v.(held := v.held[n + d := p], count := Inc16(v.count)), d);
    } else if n > w.base {
      SameForceFlush(w, v, n, d);
      var f, g := ForceFlush(w, n), ForceFlush(v, n + d);
      HeldAt(f.w.held, g.w.held, d, n);
      HeldMore(f.w.held, g.w.held, d, n, p);
    }
  }

  lemma FirstSame(n: int, p: Buffer, d: int)
    ensures SameHeld(map[n := p], map[n + d := p], d)
  {
  }

  /** Over any run a window with other names does the same: it hands over the same packets, gives up as many numbers,
    * and holds the same packets in the end. */
  lemma {:induction false} SameRun(w: Window, v: Window, ins: seq<Arrival>, d: int)
    requires ValidSize(w.size) && d % 65536 == 0 && Same(w, v, d)
    ensures SameOutcome(Run(w, ins), Run(v, ins), d)
    decreases |ins|
  {
    hide Insert, Same;
    assert v.size == w.size by { SameSize(w, v, d); }
    if ins != [] {
      var n := |ins| - 1;
      SameRun(w, v, ins[..n], d);
      SameInsert(Run(w, ins[..n]).w, Run(v, ins[..n]).w, ins[n].seqn, ins[n].packet, d);
    }
  }

  lemma SameSize(w: Window, v: Window, d: int)
    requires Same(w, v, d)
    ensures v.size == w.size
  {
  }

  /** In particular a new window does not depend on where the stream is taken to stand, as long as the names differ by
    * whole rounds. */
  lemma AnyEpoch(size: nat, near: int, rounds: int, ins: seq<Arrival>)
    requires ValidSize(size)
    ensures SameOutcome(Run(NewNear(size, near), ins), Run(NewNear(size, near + 65536 * rounds), ins), 65536 * rounds)
  {
    SameRun(NewNear(size, near), NewNear(size, near + 65536 * rounds), ins, 65536 * rounds);
  }
}
