/** The reorder window on unwrapped sequence numbers: what is held, what is delivered, what is given up. */
module ReorderModel {
  type Seq16 = x: int | 0 <= x < 65536

  const BUFFER_SIZE: nat := 1536

  type Payload = s: seq<bv8> | |s| <= BUFFER_SIZE

  /** A packet's payload in a buffer of its own. */
  datatype Buffer = Buffer(id: nat, data: Payload) {
    const size: nat := |data|
  }

  const INIT_COLLECT := 8

  datatype Delivery = Delivery(number: int, packet: Buffer)

  /** Packets held, by unwrapped number; count is the 16-bit counter of the implementation. */
  datatype Window = Window(size: nat, phase: nat, base: int, held: map<int, Buffer>, count: Seq16)

  /** A new window, the packets delivered on the way, and how many numbers were given up. */
  datatype Outcome = Outcome(w: Window, delivered: seq<Delivery>, lost: nat)

  /** a - b as a signed 16-bit number. */
  function Diff(a: int, b: int): (d: int)
    ensures -32768 <= d < 32768 && (b + d) % 65536 == a % 65536
  {
    var d := (a - b) % 65536;
    if d < 32768 then d else d - 65536
  }

  function Inc16(c: Seq16): Seq16 { (c + 1) % 65536 }

  function Dec16(c: Seq16): Seq16 { (c - 1) % 65536 }

  /** The unwrapped number a packet is taken to have. */
  function Unwrap(w: Window, seqn: Seq16): int { w.base + Diff(seqn, w.base) }

  predicate ValidSize(size: nat) { size == 32 || size == 512 }

  /** Number n modulo the window size; seq & mask in the implementation. */
  function Slot(n: int, size: nat): nat
    requires ValidSize(size)
    ensures Slot(n, size) < size
  {
    if size == 32 then n % 32 else n % 512
  }

  ghost predicate InWindow(w: Window) {
    forall n :: n in w.held ==> w.base <= n < w.base + w.size
  }

  /** Hand over consecutive packets from base on. */
  function Flush(w: Window): Outcome
    decreases |w.held|
  {
    if w.count == 0 || w.base !in w.held then Outcome(w, [], 0)
    else
      var r := Flush(w.(held := w.held - {w.base}, base := w.base + 1, count := Dec16(w.count)));
      Outcome(r.w, [Delivery(w.base, w.held[w.base])] + r.delivered, r.lost)
  }

  /** Make room for number target: hand over or give up numbers from base on. */
  function ForceFlush(w: Window, target: int): Outcome
    decreases target - w.base
  {
    if target - w.base < w.size then Outcome(w, [], 0)
    else if w.base in w.held then
      var r := ForceFlush(w.(held := w.held - {w.base}, base := w.base + 1, count := Dec16(w.count)), target);
      Outcome(r.w, [Delivery(w.base, w.held[w.base])] + r.delivered, r.lost)
    else
      var r := ForceFlush(w.(base := w.base + 1), target);
      Outcome(r.w, r.delivered, r.lost + 1)
  }

  predicate SlotTaken(w: Window, n: int)
    requires ValidSize(w.size)
  {
    exists k :: k in w.held && Slot(k, w.size) == Slot(n, w.size)
  }

  function Collect(w: Window, n: int, buf: Buffer): Window
    requires ValidSize(w.size)
  {
    if SlotTaken(w, n) then w
    else w.(held := w.held[n := buf], count := Inc16(w.count), base := if n < w.base then n else w.base)
  }

  /** One packet arrives. */
  function Insert(w: Window, seqn: Seq16, buf: Buffer): Outcome
    requires ValidSize(w.size)
  {
    var n := Unwrap(w, seqn);
    if w.phase == 0 then Outcome(w.(phase := 1, base := n, held := map[n := buf], count := 1), [], 0)
    else if w.phase == 1 then
      var c := Collect(w, n, buf);
      if c.count >= INIT_COLLECT then Flush(c.(phase := 2)) else Outcome(c, [], 0)
    else if n == w.base then
      if w.count == 0 && n !in w.held then Outcome(w.(base := w.base + 1), [Delivery(n, buf)], 0)
      else Flush(w.(held := w.held[n := buf], count := Inc16(w.count)))
    else if n < w.base then Outcome(w, [], 0)
    else
      var r := ForceFlush(w, n);
      if n in r.w.held then r
      else Outcome(r.w.(held := r.w.held[n := buf], count := Inc16(r.w.count)), r.delivered, r.lost)
  }

  // ----- what a call does -----

  /** The packets of held numbered lo .. hi - 1, in order. */
  ghost function Emitted(held: map<int, Buffer>, lo: int, hi: int): seq<Delivery>
    decreases hi - lo
  {
    if hi <= lo then []
    else (if lo in held then [Delivery(lo, held[lo])] else []) + Emitted(held, lo + 1, hi)
  }

  ghost function From(held: map<int, Buffer>, lo: int): map<int, Buffer> {
    map n | n in held && n >= lo :: held[n]
  }

  /** r moved base up from w, handing over exactly the packets passed and keeping the others. */
  ghost predicate Advances(w: Window, held: map<int, Buffer>, r: Outcome) {
    r.w.base >= w.base && r.w.size == w.size &&
    r.delivered == Emitted(held, w.base, r.w.base) &&
    r.w.held == From(held, r.w.base) &&
    r.w.base - w.base == |r.delivered| + r.lost
  }

  lemma {:induction false} EmittedFrom(held: map<int, Buffer>, from: int, lo: int, hi: int)
    requires from <= lo
    ensures Emitted(From(held, from), lo, hi) == Emitted(held, lo, hi)
    decreases hi - lo
  {
    if lo < hi { EmittedFrom(held, from, lo + 1, hi); }
  }

  lemma {:induction false} FlushAdvances(w: Window)
    requires InWindow(w)
    ensures Advances(w, w.held, Flush(w)) && Flush(w).lost == 0 && Flush(w).w.phase == w.phase
    ensures Flush(w).w.count == 0 || Flush(w).w.base !in w.held
    decreases |w.held|
  {
    if w.count == 0 || w.base !in w.held {
      assert From(w.held, w.base) == w.held;
    } else {
      var w' := w.(held := w.held - {w.base}, base := w.base + 1, count := Dec16(w.count));
      FlushAdvances(w');
      assert w'.held == From(w.held, w.base + 1);
      EmittedFrom(w.held, w.base + 1, w.base + 1, Flush(w').w.base);
      assert From(w'.held, Flush(w').w.base) == From(w.held, Flush(w').w.base);
    }
  }

  lemma {:induction false} ForceFlushAdvances(w: Window, target: int)
    requires InWindow(w)
    ensures Advances(w, w.held, ForceFlush(w, target)) && ForceFlush(w, target).w.phase == w.phase
    ensures InWindow(ForceFlush(w, target).w)
    ensures ForceFlush(w, target).w.base == if target - w.base < w.size then w.base else target - w.size + 1
    decreases target - w.base
  {
    if target - w.base < w.size {
      assert From(w.held, w.base) == w.held;
    } else {
      var w' := if w.base in w.held then w.(held := w.held - {w.base}, base := w.base + 1, count := Dec16(w.count))
                else w.(base := w.base + 1);
      ForceFlushAdvances(w', target);
      var r := ForceFlush(w', target);
      assert w'.held == From(w.held, w.base + 1);
      EmittedFrom(w.held, w.base + 1, w.base + 1, r.w.base);
      assert From(w'.held, r.w.base) == From(w.held, r.w.base);
    }
  }

  /** The packets at hand once the new one has been stored, replacing one of the same number only at base. */
  ghost function Stored(w: Window, n: int, buf: Buffer): map<int, Buffer> {
    if n < w.base || (n > w.base && n in w.held) then w.held else w.held[n := buf]
  }

  /** In the active phase: deliveries are consecutive runs of stored packets, and every number passed is accounted
    * for. */
  lemma InsertAdvances(w: Window, seqn: Seq16, buf: Buffer)
    requires ValidSize(w.size) && w.phase == 2 && InWindow(w)
    ensures var r := Insert(w, seqn, buf);
            && Advances(w, Stored(w, Unwrap(w, seqn), buf), r) && InWindow(r.w) && r.w.phase == 2
            && (Unwrap(w, seqn) >= w.base + w.size ==> r.w.base == Unwrap(w, seqn) - w.size + 1)
  {
    hide Flush, ForceFlush;
    var n := Unwrap(w, seqn);
    var all := Stored(w, n, buf);
    var r := Insert(w, seqn, buf);
    if n == w.base {
      if w.count == 0 && n !in w.held {
        assert Emitted(all, w.base + 1, w.base + 1) == [];
        assert w.held == From(all, w.base + 1);
      } else {
        FlushAdvances(w.(held := all, count := Inc16(w.count)));
      }
    } else if n < w.base {
      assert From(w.held, w.base) == w.held;
    } else {
      ForceFlushAdvances(w, n);
      var f := ForceFlush(w, n);
      EmittedIgnores(w.held, all, w.base, f.w.base, n);
      assert r.w.held == From(all, f.w.base);
    }
  }

  lemma {:induction false} EmittedIgnores(held: map<int, Buffer>, all: map<int, Buffer>, lo: int, hi: int, n: int)
    requires n >= hi && forall k :: k < hi ==> (k in held <==> k in all) && (k in held ==> held[k] == all[k])
    ensures Emitted(held, lo, hi) == Emitted(all, lo, hi)
    decreases hi - lo
  {
    if lo < hi { EmittedIgnores(held, all, lo + 1, hi, n); }
  }

  // ----- the collecting phase -----

  /** While collecting, base is the smallest number held. */
  ghost predicate Collecting(w: Window) {
    ValidSize(w.size) && w.phase == 1 && InWindow(w) && w.base in w.held
  }

  /** The new number is less than a window away from every number collected. */
  ghost predicate Near(w: Window, n: int) {
    forall k :: k in w.held ==> k < n + w.size && n < k + w.size
  }

  /** The window invariant survives collecting exactly when the packet is dropped or near the others. */
  lemma CollectExactly(w: Window, n: int, buf: Buffer)
    requires Collecting(w)
    ensures InWindow(Collect(w, n, buf)) <==> SlotTaken(w, n) || Near(w, n)
    ensures InWindow(Collect(w, n, buf)) ==> Collecting(Collect(w, n, buf))
  {
    var c := Collect(w, n, buf);
    if !SlotTaken(w, n) {
      assert n in c.held && w.base in c.held;
      forall k | k in w.held ensures k in c.held {}
    }
  }

  /** An input that breaks it: 40 arrives while 0 is collected in a window of 32. */
  lemma FarCollectBreaks(buf: Buffer)
    ensures var w := Window(32, 1, 0, map[0 := buf], 1);
            Collecting(w) && !InWindow(Insert(w, 40, buf).w)
  {
    var w := Window(32, 1, 0, map[0 := buf], 1);
    assert Unwrap(w, 40) == 40;
    assert !SlotTaken(w, 40);
    var c := Collect(w, 40, buf);
    assert 40 in c.held && c.count == 2;
  }

  /** What a caller owes: while collecting, numbers stay within one window. */
  ghost predicate Orderly(w: Window, seqn: Seq16)
    requires ValidSize(w.size)
  {
    w.phase == 1 ==> SlotTaken(w, Unwrap(w, seqn)) || Near(w, Unwrap(w, seqn))
  }

  ghost predicate Sound(w: Window) {
    ValidSize(w.size) && w.phase <= 2 && InWindow(w) &&
    (w.phase == 0 ==> w.held == map[]) && (w.phase == 1 ==> w.base in w.held)
  }

  lemma InsertSound(w: Window, seqn: Seq16, buf: Buffer)
    requires Sound(w) && Orderly(w, seqn)
    ensures Sound(Insert(w, seqn, buf).w) && Insert(w, seqn, buf).w.size == w.size
  {
    if w.phase == 1 {
      CollectExactly(w, Unwrap(w, seqn), buf);
      var c := Collect(w, Unwrap(w, seqn), buf);
      FlushAdvances(c.(phase := 2));
    } else if w.phase == 2 {
      InsertAdvances(w, seqn, buf);
    }
  }

  // ----- runs -----

  datatype Arrival = Arrival(seqn: Seq16, packet: Buffer)

  ghost function Run(w: Window, ins: seq<Arrival>): Outcome
    requires ValidSize(w.size)
    ensures Run(w, ins).w.size == w.size
    decreases |ins|
  {
    if ins == [] then Outcome(w, [], 0)
    else
      var n := |ins| - 1;
      var r := Run(w, ins[..n]);
      var o := Insert(r.w, ins[n].seqn, ins[n].packet);
      InsertSize(r.w, ins[n].seqn, ins[n].packet);
      Outcome(o.w, r.delivered + o.delivered, r.lost + o.lost)
  }

  lemma {:induction false} FlushSize(w: Window)
    ensures Flush(w).w.size == w.size
    decreases |w.held|
  {
    if w.count != 0 && w.base in w.held {
      FlushSize(w.(held := w.held - {w.base}, base := w.base + 1, count := Dec16(w.count)));
    }
  }

  lemma {:induction false} ForceFlushSize(w: Window, target: int)
    ensures ForceFlush(w, target).w.size == w.size
    decreases target - w.base
  {
    if target - w.base >= w.size {
      if w.base in w.held {
        ForceFlushSize(w.(held := w.held - {w.base}, base := w.base + 1, count := Dec16(w.count)), target);
      } else {
        ForceFlushSize(w.(base := w.base + 1), target);
      }
    }
  }

  lemma InsertSize(w: Window, seqn: Seq16, buf: Buffer)
    requires ValidSize(w.size)
    ensures Insert(w, seqn, buf).w.size == w.size
  {
    if w.phase != 0 {
      var n := Unwrap(w, seqn);
      FlushSize(Collect(w, n, buf).(phase := 2));
      FlushSize(w.(held := w.held[n := buf], count := Inc16(w.count)));
      ForceFlushSize(w, n);
    }
  }

  /** Numbers strictly increase, within lo .. hi - 1. */
  ghost predicate Increasing(d: seq<Delivery>, lo: int, hi: int) {
    (forall i :: 0 <= i < |d| ==> lo <= d[i].number < hi) &&
    forall i, j :: 0 <= i < j < |d| ==> d[i].number < d[j].number
  }

  lemma {:induction false} EmittedIncreasing(held: map<int, Buffer>, lo: int, hi: int)
    ensures Increasing(Emitted(held, lo, hi), lo, hi)
    ensures forall i :: 0 <= i < |Emitted(held, lo, hi)| ==>
              var d := Emitted(held, lo, hi)[i]; d.number in held && d.packet == held[d.number]
    decreases hi - lo
  {
    if lo < hi { EmittedIncreasing(held, lo + 1, hi); }
  }

  lemma {:induction false} EmittedComplete(held: map<int, Buffer>, lo: int, hi: int, n: int)
    requires lo <= n < hi && n in held
    ensures Delivery(n, held[n]) in Emitted(held, lo, hi)
    decreases hi - lo
  {
    if lo != n { EmittedComplete(held, lo + 1, hi, n); }
  }

  /** Every arrival of a run finds its window orderly. */
  ghost predicate AllOrderly(w: Window, ins: seq<Arrival>)
    requires ValidSize(w.size)
  {
    forall k :: 0 <= k < |ins| ==> Orderly(Run(w, ins[..k]).w, ins[k].seqn)
  }

  lemma AllOrderlyPrefix(w: Window, ins: seq<Arrival>)
    requires ValidSize(w.size) && ins != [] && AllOrderly(w, ins)
    ensures AllOrderly(w, ins[..|ins| - 1]) && Orderly(Run(w, ins[..|ins| - 1]).w, ins[|ins| - 1].seqn)
  {
    var front := ins[..|ins| - 1];
    forall k | 0 <= k < |front| ensures Orderly(Run(w, front[..k]).w, front[k].seqn) {
      assert front[..k] == ins[..k];
    }
  }

  /** A window before its first packet. */
  function New(size: nat): Window { NewNear(size, 0) }

  /** The same, for a stream that has come near this number: the first packet is taken for the number next to it. */
  function NewNear(size: nat, near: int): Window { Window(size, 0, near, map[], 0) }

  /** Where delivery starts: at the base of a window that delivers already, at the first packet delivered of any
    * other. */
  ghost function Start(w: Window, r: Outcome): int {
    if w.phase == 2 || r.delivered == [] then w.base else r.delivered[0].number
  }

  /**
   * What leads from one window to another keeps the order: before the active phase nothing is delivered; then numbers
   * are delivered in strictly increasing order, and the base is where delivery started, plus the deliveries and the
   * losses.
   */
  ghost predicate InOrder(w: Window, r: Outcome) {
    Sound(r.w) && r.w.size == w.size && w.phase <= r.w.phase &&
    if r.w.phase < 2 then r.delivered == [] && r.lost == 0
    else
      (w.phase < 2 ==> r.delivered != []) && Increasing(r.delivered, Start(w, r), r.w.base) &&
      r.w.base - Start(w, r) == |r.delivered| + r.lost
  }

  lemma IncreasingConcat(a: seq<Delivery>, b: seq<Delivery>, lo: int, mid: int, hi: int)
    requires lo <= mid <= hi && Increasing(a, lo, mid) && Increasing(b, mid, hi)
    ensures Increasing(a + b, lo, hi)
  {
    forall i, j | 0 <= i < j < |a + b| ensures (a + b)[i].number < (a + b)[j].number {
      assert (a + b)[i] == if i < |a| then a[i] else b[i - |a|];
      assert (a + b)[j] == if j < |a| then a[j] else b[j - |a|];
    }
  }

  /** One arrival more keeps the order. */
  lemma StepInOrder(w: Window, r: Outcome, seqn: Seq16, buf: Buffer)
    requires InOrder(w, r) && Orderly(r.w, seqn)
    ensures var o := Insert(r.w, seqn, buf); InOrder(w, Outcome(o.w, r.delivered + o.delivered, r.lost + o.lost))
  {
    InsertSound(r.w, seqn, buf);
    var o, n := Insert(r.w, seqn, buf), Unwrap(r.w, seqn);
    if r.w.phase == 2 {
      InsertAdvances(r.w, seqn, buf);
      hide Insert, Sound, Emitted;
      EmittedIncreasing(Stored(r.w, n, buf), r.w.base, o.w.base);
      IncreasingConcat(r.delivered, o.delivered, Start(w, r), r.w.base, o.w.base);
    } else if r.w.phase == 1 {
      StartInOrder(r.w, seqn, buf);
      hide Insert, Sound, Emitted, Increasing;
    }
  }

  /** What an arrival does while packets are collected. */
  lemma StartInOrder(w: Window, seqn: Seq16, buf: Buffer)
    requires Sound(w) && w.phase == 1 && Orderly(w, seqn)
    ensures var o := Insert(w, seqn, buf);
      o.lost == 0 && if o.w.phase == 1 then o.delivered == []
      else
        o.w.phase == 2 && o.delivered != [] && o.w.base - o.delivered[0].number == |o.delivered| &&
        Increasing(o.delivered, o.delivered[0].number, o.w.base)
  {
    var c := Collect(w, Unwrap(w, seqn), buf);
    ActivationAdvances(w, seqn, buf);
    CollectExactly(w, Unwrap(w, seqn), buf);
    var o := Insert(w, seqn, buf);
    EmittedIncreasing(c.held, c.base, o.w.base);
    assert c.phase == 1 && c.base in c.held;
    hide Emitted, Increasing, Collect, Orderly;
    if c.count >= INIT_COLLECT {
      FirstFlushed(c.(phase := 2));
    }
  }

  /** A window that starts to deliver hands over the packet at its base. */
  lemma FirstFlushed(w: Window)
    requires w.count != 0 && w.base in w.held
    ensures Flush(w).delivered != [] && Flush(w).delivered[0].number == w.base
  {
  }

  lemma NothingRun(w: Window)
    requires Sound(w)
    ensures InOrder(w, Run(w, []))
  {
  }

  /** Over any run in which the packets collected are near each other, also across 16-bit wrap-around. */
  lemma {:induction false} RunOrdered(w: Window, ins: seq<Arrival>)
    requires Sound(w) && AllOrderly(w, ins)
    ensures InOrder(w, Run(w, ins)) && Sound(Run(w, ins).w)
    decreases |ins|
  {
    hide Insert, Orderly, AllOrderly;
    if ins == [] {
      NothingRun(w);
    } else {
      var n := |ins| - 1;
      AllOrderlyPrefix(w, ins);
      RunOrdered(w, ins[..n]);
      StepInOrder(w, Run(w, ins[..n]), ins[n].seqn, ins[n].packet);
    }
  }

  /** In the active phase nothing is owed. */
  lemma {:induction false} ActiveIsOrderly(w: Window, ins: seq<Arrival>)
    requires Sound(w) && w.phase == 2
    ensures AllOrderly(w, ins) && Sound(Run(w, ins).w) && Run(w, ins).w.phase == 2
    decreases |ins|
  {
    if ins != [] {
      var n := |ins| - 1;
      var front := ins[..n];
      ActiveIsOrderly(w, front);
      hide Insert, Sound, Run;
      forall k | 0 <= k < |ins| ensures Orderly(Run(w, ins[..k]).w, ins[k].seqn) {
        assert ins[..k] == front[..k] && (k < n ==> ins[k] == front[k]);
      }
      RunOrdered(w, ins);
    }
  }

  /** Number n does not arrive during the run. */
  ghost predicate NoArrival(ins: seq<Arrival>, n: int) {
    forall i :: 0 <= i < |ins| ==> ins[i].seqn != n % 65536
  }

  /**
   * base never passes a stored number without delivering it: over any run a held number stays held or is
   * delivered, and unless the same number arrives again it is the very packet that was held.
   */
  lemma {:induction false} HeldFate(w: Window, ins: seq<Arrival>, n: int)
    requires Sound(w) && AllOrderly(w, ins) && n in w.held
    ensures var r := Run(w, ins);
            && (n >= r.w.base ==> n in r.w.held && (NoArrival(ins, n) ==> r.w.held[n] == w.held[n]))
            && (n < r.w.base ==> exists b :: Delivery(n, b) in r.delivered)
            && (n < r.w.base && NoArrival(ins, n) ==> Delivery(n, w.held[n]) in r.delivered)
    decreases |ins|
  {
    if ins != [] {
      var k := |ins| - 1;
      AllOrderlyPrefix(w, ins);
      HeldFate(w, ins[..k], n);
      RunOrdered(w, ins[..k]);
      var r := Run(w, ins[..k]);
      var o := Insert(r.w, ins[k].seqn, ins[k].packet);
      var all := Run(w, ins);
      assert all.w == o.w && all.delivered == r.delivered + o.delivered;
      hide Insert, Run, Orderly, AllOrderly;
      assert NoArrival(ins, n) ==> NoArrival(ins[..k], n) && ins[k].seqn != n % 65536;
      hide Sound, InOrder, Orderly;
      if n >= r.w.base {
        StepFate(r.w, ins[k].seqn, ins[k].packet, n);
        if b :| Delivery(n, b) in o.delivered { assert Delivery(n, b) in all.delivered; }
      } else {
        var b :| Delivery(n, b) in r.delivered;
        assert Delivery(n, b) in all.delivered;
        BaseAfterDelivery(w, r, ins[k].seqn, ins[k].packet);
      }
    }
  }

  lemma BaseAfterDelivery(w: Window, r: Outcome, seqn: Seq16, buf: Buffer)
    requires InOrder(w, r) && r.delivered != []
    ensures Insert(r.w, seqn, buf).w.base >= r.w.base
  {
    InsertAdvances(r.w, seqn, buf);
    hide Insert;
  }

  lemma StepFate(w: Window, seqn: Seq16, buf: Buffer, n: int)
    requires Sound(w) && Orderly(w, seqn) && n in w.held
    ensures var o := Insert(w, seqn, buf);
            && (n >= o.w.base ==> n in o.w.held && (seqn != n % 65536 ==> o.w.held[n] == w.held[n]))
            && (n < o.w.base ==> exists b :: Delivery(n, b) in o.delivered)
            && (n < o.w.base && seqn != n % 65536 ==> Delivery(n, w.held[n]) in o.delivered)
  {
    StepSplit(w, seqn, buf);
    var o := Insert(w, seqn, buf);
    var all := Ready(w, seqn, buf);
    assert n in all && (seqn != n % 65536 ==> all[n] == w.held[n]);
    hide Insert, Ready, Orderly, Sound;
    if n < o.w.base {
      EmittedComplete(all, Low(w, seqn, buf), o.w.base, n);
      assert Delivery(n, all[n]) in o.delivered;
    }
  }

  /** The packets at hand once the new one has been taken in. */
  ghost function Ready(w: Window, seqn: Seq16, buf: Buffer): map<int, Buffer>
    requires ValidSize(w.size)
  {
    if w.phase == 0 then map[Unwrap(w, seqn) := buf]
    else if w.phase == 1 then Collect(w, Unwrap(w, seqn), buf).held
    else Stored(w, Unwrap(w, seqn), buf)
  }

  /** The smallest number that can be at hand then. */
  ghost function Low(w: Window, seqn: Seq16, buf: Buffer): int
    requires ValidSize(w.size)
  {
    if w.phase == 0 then Unwrap(w, seqn) else if w.phase == 1 then Collect(w, Unwrap(w, seqn), buf).base else w.base
  }

  /** In every phase an arrival splits the packets at hand into those delivered and those held. */
  lemma StepSplit(w: Window, seqn: Seq16, buf: Buffer)
    requires Sound(w) && Orderly(w, seqn)
    ensures var o, all, low := Insert(w, seqn, buf), Ready(w, seqn, buf), Low(w, seqn, buf);
      low <= o.w.base && o.delivered == Emitted(all, low, o.w.base) && o.w.held == From(all, o.w.base) &&
      forall n :: n in all ==> low <= n
  {
    var o, all, low := Insert(w, seqn, buf), Ready(w, seqn, buf), Low(w, seqn, buf);
    if w.phase == 0 {
      assert From(all, low) == all;
    } else if w.phase == 1 {
      ActivationAdvances(w, seqn, buf);
      hide Insert;
      assert o.w.phase == 1 ==> From(all, low) == all;
    } else {
      InsertAdvances(w, seqn, buf);
    }
  }

  /** Nothing is invented: every delivered packet was held at the start or arrived under its own number. */
  lemma {:induction false} DeliveredOrigin(w: Window, ins: seq<Arrival>, d: Delivery)
    requires Sound(w) && AllOrderly(w, ins)
    ensures var r := Run(w, ins);
      d in r.delivered || (d.number in r.w.held && r.w.held[d.number] == d.packet) ==>
        (d.number in w.held && w.held[d.number] == d.packet) ||
        exists i :: 0 <= i < |ins| && ins[i].seqn == d.number % 65536 && ins[i].packet == d.packet
    decreases |ins|
  {
    if ins != [] {
      var k := |ins| - 1;
      AllOrderlyPrefix(w, ins);
      DeliveredOrigin(w, ins[..k], d);
      RunOrdered(w, ins[..k]);
      var r := Run(w, ins[..k]);
      var o := Insert(r.w, ins[k].seqn, ins[k].packet);
      assert Run(w, ins).delivered == r.delivered + o.delivered && Run(w, ins).w == o.w;
      hide Run, Insert, Sound, Orderly, AllOrderly, InOrder;
      StepOrigin(r.w, ins[k].seqn, ins[k].packet, d);
      if i :| 0 <= i < k && ins[..k][i].seqn == d.number % 65536 && ins[..k][i].packet == d.packet {
        assert ins[i] == ins[..k][i];
      }
    }
  }

  lemma StepOrigin(w: Window, seqn: Seq16, buf: Buffer, d: Delivery)
    requires Sound(w) && Orderly(w, seqn)
    ensures var o := Insert(w, seqn, buf);
      d in o.delivered || (d.number in o.w.held && o.w.held[d.number] == d.packet) ==>
        (d.number in w.held && w.held[d.number] == d.packet) || (seqn == d.number % 65536 && buf == d.packet)
  {
    StepSplit(w, seqn, buf);
    var o := Insert(w, seqn, buf);
    var all := Ready(w, seqn, buf);
    hide Insert, Sound, Orderly, SlotTaken;
    EmittedIncreasing(all, Low(w, seqn, buf), o.w.base);
    assert seqn == Unwrap(w, seqn) % 65536;
    if d in o.delivered || (d.number in o.w.held && o.w.held[d.number] == d.packet) {
      assert d.number in all && all[d.number] == d.packet;
    }
  }

  // ----- the counter -----

  /** How far the 16-bit counter is ahead of the number of packets held. */
  ghost function Drift(w: Window): Seq16 { (w.count - |w.held|) % 65536 }

  /** The window after the packet at base is handed over. */
  ghost function Dropped(w: Window): Window {
    w.(held := w.held - {w.base}, base := w.base + 1, count := Dec16(w.count))
  }

  lemma DropDrift(w: Window)
    requires w.base in w.held
    ensures Drift(Dropped(w)) == Drift(w) && |Dropped(w).held| < |w.held|
  {
    assert Dropped(w).held.Keys == w.held.Keys - {w.base};
  }

  lemma {:induction false} FlushDrift(w: Window)
    ensures Drift(Flush(w).w) == Drift(w)
    decreases |w.held|
  {
    hide Drift, Dec16;
    if w.count != 0 && w.base in w.held {
      DropDrift(w);
      FlushDrift(Dropped(w));
    }
  }

  lemma {:induction false} ForceFlushDrift(w: Window, target: int)
    ensures Drift(ForceFlush(w, target).w) == Drift(w)
    decreases target - w.base
  {
    hide Dec16;
    if target - w.base >= w.size {
      if w.base in w.held {
        DropDrift(w);
        ForceFlushDrift(Dropped(w), target);
      } else {
        ForceFlushDrift(w.(base := w.base + 1), target);
      }
    }
  }

  lemma AddKey(held: map<int, Buffer>, n: int, buf: Buffer)
    ensures |held[n := buf]| == if n in held then |held| else |held| + 1
  {
    assert held[n := buf].Keys == held.Keys + {n};
  }

  /** The counter gets ahead by one exactly when a duplicate replaces the packet waiting at base. */
  lemma CountDrift(w: Window, seqn: Seq16, buf: Buffer)
    requires ValidSize(w.size) && w.phase == 2
    ensures var n := Unwrap(w, seqn);
            Drift(Insert(w, seqn, buf).w) == if n == w.base && n in w.held then Inc16(Drift(w)) else Drift(w)
  {
    hide Flush, ForceFlush, Drift, Diff, Collect, SlotTaken, Unwrap;
    var n := Unwrap(w, seqn);
    if n == w.base {
      StoreAgain(w, buf);
      FlushDrift(w.(held := w.held[n := buf], count := Inc16(w.count)));
    } else if n > w.base {
      ForceFlushDrift(w, n);
      if n !in ForceFlush(w, n).w.held { StoreDrift(ForceFlush(w, n).w, n, buf); }
    }
  }

  lemma StoreAgain(w: Window, buf: Buffer)
    ensures Drift(w.(held := w.held[w.base := buf], count := Inc16(w.count))) ==
      if w.base in w.held then Inc16(Drift(w)) else Drift(w)
    ensures Drift(w.(base := w.base + 1)) == Drift(w)
  {
    AddKey(w.held, w.base, buf);
  }

  lemma StoreDrift(w: Window, n: int, buf: Buffer)
    requires n !in w.held
    ensures Drift(w.(held := w.held[n := buf], count := Inc16(w.count))) == Drift(w)
  {
    AddKey(w.held, n, buf);
  }

  /** The first flush starts at the smallest number collected. */
  lemma ActivationAdvances(w: Window, seqn: Seq16, buf: Buffer)
    requires Collecting(w) && Orderly(w, seqn)
    ensures var c, r := Collect(w, Unwrap(w, seqn), buf), Insert(w, seqn, buf);
            && (forall n :: n in c.held ==> c.base <= n)
            && (c.count < INIT_COLLECT ==> r == Outcome(c, [], 0))
            && (c.count >= INIT_COLLECT ==> r.w.phase == 2 && Advances(c, c.held, r) && r.lost == 0)
  {
    CollectExactly(w, Unwrap(w, seqn), buf);
    var c := Collect(w, Unwrap(w, seqn), buf);
    FlushAdvances(c.(phase := 2));
  }
}
