/** Moving a subscriber between its private reorder window and the shared one of its source. */
module Handoff {

  import opened ReorderModel

  /** The test for moving to shared output: both windows deliver in order, the private one looks empty, and both are at
    * the same 16-bit number. */
  predicate AtBoundary(private: Window, shared: Window) {
    shared.phase == 2 && private.phase == 2 && private.count == 0 && private.base % 65536 == shared.base % 65536
  }

  /** Unless duplicates made the counter wrap around, a private window that looks empty is empty. */
  lemma LooksEmpty(w: Window)
    requires ValidSize(w.size) && InWindow(w) && Drift(w) + w.size < 65536
    ensures w.count == Drift(w) + |w.held|
    ensures w.count == 0 <==> w.held == map[] && Drift(w) == 0
  {
    HeldFits(w.held, w.base, w.size);
    assert w.held == map[] <==> w.held.Keys == {};
  }

  lemma HeldFits(held: map<int, Buffer>, lo: int, n: nat)
    requires forall k :: k in held ==> lo <= k < lo + n
    ensures |held| <= n
  {
    KeysFit(held.Keys, lo, n);
  }

  lemma {:induction false} KeysFit(keys: set<int>, lo: int, n: nat)
    requires forall k :: k in keys ==> lo <= k < lo + n
    ensures |keys| <= n
  {
    if n == 0 {
      assert forall k :: k in keys ==> false;
      assert keys == {};
    } else {
      KeysFit(keys - {lo + n - 1}, lo, n - 1);
      if lo + n - 1 in keys {
        assert keys == (keys - {lo + n - 1}) + {lo + n - 1};
      } else {
        assert keys == keys - {lo + n - 1};
      }
    }
  }

  /** Equal 16-bit numbers less than half the space apart are the same number. */
  lemma SameNumber(a: int, b: int)
    requires a % 65536 == b % 65536 && -32768 < a - b < 32768
    ensures a == b
  {
  }

  /**
    * A subscriber that moves to shared output at a boundary sees one stream: the numbers delivered to it privately and
    * those the shared window delivers afterwards strictly increase, and every number passed is delivered or counted as
    * lost.
    */
  lemma HandOff(start: Window, before: seq<Arrival>, shared: Window, after: seq<Arrival>)
    requires Sound(start) && AllOrderly(start, before) && Sound(shared)
    requires var private := Run(start, before).w;
      AtBoundary(private, shared) && -32768 < private.base - shared.base < 32768 &&
      Drift(private) + private.size < 65536
    ensures var private, later := Run(start, before), Run(shared, after);
      && private.w.held == map[] && private.w.base == shared.base
      && Increasing(private.delivered + later.delivered, Start(start, private), later.w.base)
      && later.w.base - Start(start, private) == |private.delivered + later.delivered| + private.lost + later.lost
  {
    var private, later := Run(start, before), Run(shared, after);
    RunOrdered(start, before);
    ActiveIsOrderly(shared, after);
    RunOrdered(shared, after);
    hide Run, Sound, AllOrderly;
    LooksEmpty(private.w);
    SameNumber(private.w.base, shared.base);
    IncreasingConcat(private.delivered, later.delivered, Start(start, private), shared.base, later.w.base);
  }

  /** A packet replaced by a duplicate at base leaves the counter ahead, and then the private window never looks
    * empty. */
  lemma DuplicateBlocksPromotion(w: Window, shared: Window)
    requires Sound(w) && w.phase == 2 && 0 < Drift(w) && Drift(w) + w.size < 65536
    ensures !AtBoundary(w, shared)
  {
    LooksEmpty(w);
  }

  lemma DriftStep(w: Window, seqn: Seq16, buf: Buffer)
    requires Sound(w) && w.phase == 2 && Drift(w) < 65535
    ensures Drift(w) <= Drift(Insert(w, seqn, buf).w) <= Drift(w) + 1
  {
    CountDrift(w, seqn, buf);
  }

  /** The counter stays ahead over any run in which it does not wrap around. */
  lemma {:induction false} DriftNeverFalls(w: Window, ins: seq<Arrival>)
    requires Sound(w) && w.phase == 2 && Drift(w) + |ins| < 65536
    ensures Drift(w) <= Drift(Run(w, ins).w) <= Drift(w) + |ins|
    decreases |ins|
  {
    hide Insert, Drift;
    if ins != [] {
      var n := |ins| - 1;
      DriftNeverFalls(w, ins[..n]);
      ActiveIsOrderly(w, ins[..n]);
      DriftStep(Run(w, ins[..n]).w, ins[n].seqn, ins[n].packet);
    }
  }

  /** So a subscriber whose private window once replaced a packet at base is not promoted during the run that
    * follows. */
  lemma StaysPrivate(w: Window, ins: seq<Arrival>, shared: Window)
    requires Sound(w) && w.phase == 2 && 0 < Drift(w) && Drift(w) + |ins| + w.size < 65536
    ensures !AtBoundary(Run(w, ins).w, shared)
  {
    DriftNeverFalls(w, ins);
    ActiveIsOrderly(w, ins);
    hide Sound, Run, AllOrderly;
    DuplicateBlocksPromotion(Run(w, ins).w, shared);
  }

  /** Packets 0 to k - 1, in order. */
  ghost function Firsts(packet: nat -> Buffer, k: nat): seq<Arrival> {
    if k == 0 then [] else Firsts(packet, k - 1) + [Arrival((k - 1) % 65536, packet(k - 1))]
  }

  ghost function Between(packet: nat -> Buffer, lo: nat, hi: nat): map<int, Buffer> {
    map i: nat | lo <= i < hi :: i as int := packet(i)
  }

  lemma NextArrival(w: Window, ins: seq<Arrival>, a: Arrival)
    requires ValidSize(w.size)
    ensures Run(w, ins + [a]).w == Insert(Run(w, ins).w, a.seqn, a.packet).w
  {
    assert (ins + [a])[..|ins|] == ins;
  }

  lemma {:induction false} CollectFirsts(packet: nat -> Buffer, k: nat)
    requires 0 < k < INIT_COLLECT
    ensures Run(New(32), Firsts(packet, k)).w == Window(32, 1, 0, Between(packet, 0, k), k)
  {
    hide Run, Insert, Between, Collect, Diff;
    NextArrival(New(32), Firsts(packet, k - 1), Arrival(k - 1, packet(k - 1)));
    if k == 1 {
      CollectFirst(packet);
    } else {
      CollectFirsts(packet, k - 1);
      CollectNext(packet, k - 1);
    }
  }

  lemma CollectFirst(packet: nat -> Buffer)
    ensures Run(New(32), []).w == New(32) &&
      Insert(New(32), 0, packet(0)).w == Window(32, 1, 0, Between(packet, 0, 1), 1)
  {
    assert Between(packet, 0, 1) == map[0 := packet(0)];
  }

  lemma CollectNext(packet: nat -> Buffer, k: nat)
    requires 0 < k < INIT_COLLECT
    ensures var w := Window(32, 1, 0, Between(packet, 0, k), k);
      Unwrap(w, k) == k && Collect(w, k, packet(k)) == Window(32, 1, 0, Between(packet, 0, k + 1), k + 1) &&
      Orderly(w, k) &&
      (k + 1 < INIT_COLLECT ==> Insert(w, k, packet(k)).w == Window(32, 1, 0, Between(packet, 0, k + 1), k + 1))
  {
    var w := Window(32, 1, 0, Between(packet, 0, k), k);
    assert !SlotTaken(w, k);
    assert Between(packet, 0, k)[k := packet(k)] == Between(packet, 0, k + 1);
  }

  lemma {:induction false} FlushFirsts(packet: nat -> Buffer, lo: nat)
    requires lo <= INIT_COLLECT
    ensures Flush(Window(32, 2, lo, Between(packet, lo, INIT_COLLECT), INIT_COLLECT - lo)).w ==
      Window(32, 2, INIT_COLLECT, map[], 0)
    decreases INIT_COLLECT - lo
  {
    if lo < INIT_COLLECT {
      FlushFirsts(packet, lo + 1);
      assert Between(packet, lo, INIT_COLLECT) - {lo} == Between(packet, lo + 1, INIT_COLLECT);
    } else {
      assert Between(packet, lo, INIT_COLLECT) == map[];
    }
  }

  /**
    * A run from a new window that loses promotion: packets 0 to 7 start delivery; 9 waits for 8 until 40 arrives, which
    * gives 8 up and leaves 9 at the base; its duplicate is counted a second time, and the counter stays ahead by one
    * from then on.
    */
  lemma PromotionLost(packet: nat -> Buffer)
    ensures
      var ins := Firsts(packet, 8) + [Arrival(9, packet(9))] + [Arrival(40, packet(40))] + [Arrival(9, packet(41))];
      AllOrderly(New(32), ins) && Run(New(32), ins).w == Window(32, 2, 10, map[40 := packet(40)], 2) &&
      Drift(Run(New(32), ins).w) == 1
  {
    hide Run, Insert, Orderly, AllOrderly, Firsts;
    var start := New(32);
    var ins0 := Firsts(packet, 8);
    var ins1 := ins0 + [Arrival(9, packet(9))];
    var ins2 := ins1 + [Arrival(40, packet(40))];
    StartDelivery(packet);
    NextArrival(start, ins0, Arrival(9, packet(9)));
    NextArrival(start, ins1, Arrival(40, packet(40)));
    NextArrival(start, ins2, Arrival(9, packet(41)));
    StoreNine(packet(9));
    GiveUp(packet(9), packet(40));
    CountTwice(packet(9), packet(40), packet(41));
    assert map[40 := packet(40)].Keys == {40};
    FirstsOrderly(packet, 8);
    AddOrderly(start, ins0, Arrival(9, packet(9)));
    AddOrderly(start, ins1, Arrival(40, packet(40)));
    AddOrderly(start, ins2, Arrival(9, packet(41)));
  }

  lemma StartDelivery(packet: nat -> Buffer)
    ensures Run(New(32), Firsts(packet, 8)).w == Window(32, 2, 8, map[], 0)
  {
    hide Run, Between, Collect, Diff, Flush, Orderly, SlotTaken, Firsts;
    CollectFirsts(packet, 7);
    CollectNext(packet, 7);
    FlushFirsts(packet, 0);
    NextArrival(New(32), Firsts(packet, 7), Arrival(7, packet(7)));
    EighthFirst(packet);
  }

  lemma EighthFirst(packet: nat -> Buffer)
    ensures Firsts(packet, 8) == Firsts(packet, 7) + [Arrival(7, packet(7))]
  {
  }

  lemma StoreNine(a: Buffer)
    ensures Insert(Window(32, 2, 8, map[], 0), 9, a).w == Window(32, 2, 8, map[9 := a], 1)
  {
    assert Unwrap(Window(32, 2, 8, map[], 0), 9) == 9;
    hide Diff, Flush, Collect, Unwrap;
  }

  lemma GiveUp(a: Buffer, b: Buffer)
    ensures Insert(Window(32, 2, 8, map[9 := a], 1), 40, b).w == Window(32, 2, 9, map[9 := a, 40 := b], 2)
  {
    var w := Window(32, 2, 8, map[9 := a], 1);
    assert Unwrap(w, 40) == 40;
    assert ForceFlush(w, 40).w == w.(base := 9);
    hide Diff, Flush, ForceFlush, Collect, Unwrap;
  }

  lemma CountTwice(a: Buffer, b: Buffer, c: Buffer)
    ensures Insert(Window(32, 2, 9, map[9 := a, 40 := b], 2), 9, c).w == Window(32, 2, 10, map[40 := b], 2)
  {
    var w := Window(32, 2, 9, map[9 := a, 40 := b], 2);
    assert Unwrap(w, 9) == 9;
    var next := w.(held := w.held[9 := c], count := 3);
    assert next.held - {9} == map[40 := b];
    assert Flush(Window(32, 2, 10, map[40 := b], 2)).w == Window(32, 2, 10, map[40 := b], 2);
  }

  lemma NothingArrived(w: Window)
    requires ValidSize(w.size)
    ensures AllOrderly(w, [])
  {
  }

  lemma AddOrderly(w: Window, ins: seq<Arrival>, a: Arrival)
    requires ValidSize(w.size) && AllOrderly(w, ins) && (Run(w, ins).w.phase != 1 || Orderly(Run(w, ins).w, a.seqn))
    ensures AllOrderly(w, ins + [a])
  {
    forall k | 0 <= k <= |ins| ensures Orderly(Run(w, (ins + [a])[..k]).w, (ins + [a])[k].seqn) {
      assert (ins + [a])[..k] == ins[..k];
      assert k == |ins| ==> ins[..k] == ins;
    }
  }

  lemma {:induction false} FirstsOrderly(packet: nat -> Buffer, k: nat)
    requires k <= INIT_COLLECT
    ensures AllOrderly(New(32), Firsts(packet, k))
  {
    hide Run, Orderly, AllOrderly, Between, Insert, Collect, Diff;
    if k == 0 {
      NothingArrived(New(32));
    } else {
      FirstsOrderly(packet, k - 1);
      if k > 1 {
        CollectFirsts(packet, k - 1);
        CollectNext(packet, k - 1);
      }
      CollectFirst(packet);
      AddOrderly(New(32), Firsts(packet, k - 1), Arrival(k - 1, packet(k - 1)));
    }
  }

  /** Arrivals one after the other. */
  lemma {:induction false} RunConcat(w: Window, first: seq<Arrival>, second: seq<Arrival>)
    requires ValidSize(w.size)
    ensures var r, s, t := Run(w, first), Run(Run(w, first).w, second), Run(w, first + second);
      t.w == s.w && t.delivered == r.delivered + s.delivered && t.lost == r.lost + s.lost
    decreases |second|
  {
    hide Insert, ValidSize;
    if second == [] {
      assert first + second == first;
    } else {
      var n := |second| - 1;
      RunConcat(w, first, second[..n]);
      assert (first + second)[..|first| + n] == first + second[..n];
      assert (first + second)[|first| + n] == second[n];
    }
  }

  // ----- from unicast to multicast -----

  /** Packets numbered one after the other. */
  ghost function Stretch(from: int, packets: seq<Buffer>): seq<Arrival> {
    seq(|packets|, i requires 0 <= i < |packets| => Arrival((from + i) % 65536, packets[i]))
  }

  /** Nothing is held from here on, and the base is not beyond. */
  ghost predicate Upto(w: Window, top: int) {
    w.base <= top && forall k :: k in w.held ==> k < top
  }

  lemma {:induction false} FlushUpto(w: Window, top: int)
    requires Upto(w, top)
    ensures Upto(Flush(w).w, top)
    decreases |w.held|
  {
    if w.count != 0 && w.base in w.held {
      FlushUpto(Dropped(w), top);
    }
  }

  lemma FlushPasses(w: Window)
    requires InWindow(w) && w.count != 0 && w.base in w.held
    ensures Flush(w).w.base > w.base
  {
    FirstFlushed(w);
    FlushAdvances(w);
  }

  /** How far the counter gets ahead once every number has come: a packet held at the base will be replaced by its
    * duplicate. */
  ghost function Surplus(w: Window): nat {
    Drift(w) + if w.base in w.held then 1 else 0
  }

  /** A packet at the base, or before it, leaves no gap behind, and the base is past it. */
  lemma NextLeavesNoGap(w: Window, n: int, buf: Buffer, top: int)
    requires Sound(w) && w.phase == 2 && n <= w.base < n + 32768 && Upto(w, top) && Surplus(w) + w.size < 65535
    ensures var o := Insert(w, n % 65536, buf);
      o.lost == 0 && o.w.base > n && Upto(o.w, if n + 1 > top then n + 1 else top) && Surplus(o.w) == Surplus(w)
  {
    hide Flush, ForceFlush, Collect, SlotTaken, Drift;
    assert Unwrap(w, n % 65536) == n;
    CountDrift(w, n % 65536, buf);
    LooksEmpty(w);
    if n == w.base && (w.count != 0 || n in w.held) {
      var s := w.(held := w.held[n := buf], count := Inc16(w.count));
      HeldFits(w.held, w.base, w.size);
      FlushAdvances(s);
      FlushUpto(s, if n + 1 > top then n + 1 else top);
      FlushPasses(s);
      if Flush(s).w.count == 0 {
        EmptyAtZero(Flush(s).w);
      }
    }
  }

  lemma EmptyAtZero(w: Window)
    requires ValidSize(w.size) && InWindow(w) && Drift(w) + w.size < 65536 && w.count == 0
    ensures w.held == map[]
  {
    LooksEmpty(w);
  }

  /** How far the base can be after packets up to a number. */
  ghost function Top(w: Window, n: int): int {
    if n > w.base + w.size then n else w.base + w.size
  }

  /** Packets numbered one after the other, the first of them not beyond the base, add no gap: whatever the window held,
    * it gives nothing up, and in the end it has gone past the last of them, and no further than what it held. */
  lemma {:induction false} NoGap(w: Window, from: int, packets: seq<Buffer>)
    requires Sound(w) && w.phase == 2 && from <= w.base && w.base + w.size - from < 32768 && Surplus(w) + w.size < 65535
    ensures var r := Run(w, Stretch(from, packets));
      Sound(r.w) && r.w.phase == 2 && r.lost == 0 && r.w.base >= from + |packets| && Surplus(r.w) == Surplus(w)
    ensures Upto(Run(w, Stretch(from, packets)).w, Top(w, from + |packets|))
    decreases |packets|
  {
    hide Insert, Surplus;
    ActiveIsOrderly(w, Stretch(from, packets));
    if packets != [] {
      var n := |packets| - 1;
      assert Stretch(from, packets)[..n] == Stretch(from, packets[..n]);
      NoGap(w, from, packets[..n]);
      NextLeavesNoGap(Run(w, Stretch(from, packets[..n])).w, from + n, packets[n], Top(w, from + n));
    }
  }

  /** So what the window hands over from there on is every number, each once. */
  lemma HandsOverAll(w: Window, from: int, packets: seq<Buffer>)
    requires Sound(w) && w.phase == 2 && from <= w.base && w.base + w.size - from < 32768 && Surplus(w) + w.size < 65535
    ensures var r := Run(w, Stretch(from, packets));
      r.lost == 0 && r.w.base >= from + |packets| && r.w.base >= w.base && r.w.base - w.base == |r.delivered| &&
      forall i :: 0 <= i < |r.delivered| ==> r.delivered[i].number == w.base + i
  {
    hide Insert, Run, Surplus;
    NoGap(w, from, packets);
    ActiveIsOrderly(w, Stretch(from, packets));
    RunOrdered(w, Stretch(from, packets));
    var r := Run(w, Stretch(from, packets));
    Dense(r.delivered, w.base, r.w.base);
  }

  /** As many increasing numbers as there is room for are all of them. */
  lemma {:induction false} Dense(ds: seq<Delivery>, lo: int, hi: int)
    requires Increasing(ds, lo, hi) && hi - lo == |ds|
    ensures forall i :: 0 <= i < |ds| ==> ds[i].number == lo + i
    decreases |ds|
  {
    if ds != [] {
      var n := |ds| - 1;
      SpreadOut(ds, lo, n);
      if n > 0 {
        assert ds[n - 1].number < ds[n].number;
      }
      assert forall i :: 0 <= i < n ==> ds[..n][i].number < hi - 1;
      Dense(ds[..n], lo, hi - 1);
      assert forall i :: 0 <= i < n ==> ds[..n][i] == ds[i];
    }
  }

  lemma {:induction false} SpreadOut(ds: seq<Delivery>, lo: int, i: nat)
    requires i < |ds| && (forall j :: 0 <= j < |ds| ==> lo <= ds[j].number) &&
      forall j, k :: 0 <= j < k < |ds| ==> ds[j].number < ds[k].number
    ensures ds[i].number >= lo + i
    decreases i
  {
    if i > 0 {
      SpreadOut(ds, lo, i - 1);
    }
  }
}
