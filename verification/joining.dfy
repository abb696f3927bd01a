/** Following the shared output from a number other than one's own: when the order is kept. */
module Joining {

  import opened ReorderModel
  import opened DeliveryLog
  import Handoff

  ghost predicate AllBelow(items: seq<Item>, base: int) {
    forall i :: 0 <= i < |items| && items[i].Numbered? ==> items[i].delivery.number < base
  }

  /** The last numbered item that was handed over. */
  ghost predicate IsLast(items: seq<Item>, i: int) {
    0 <= i < |items| && items[i].Numbered? && forall j :: i < j < |items| ==> items[j].Bare?
  }

  /** The last number handed over, if there is one, is less than half the number space away. */
  ghost predicate NearLast(items: seq<Item>, lo: int) {
    forall i :: IsLast(items, i) ==> -32768 <= items[i].delivery.number - lo < 32768
  }

  /** The last number handed over, if there is one, is before another, as 16-bit numbers go. */
  ghost predicate Before(items: seq<Item>, lo: int) {
    forall i :: IsLast(items, i) ==> Diff(items[i].delivery.number % 65536, lo % 65536) < 0
  }

  lemma {:induction false} SomeLast(items: seq<Item>, i: nat)
    requires i < |items| && items[i].Numbered?
    ensures exists k :: i <= k && IsLast(items, k)
    decreases |items| - i
  {
    if j :| i < j < |items| && items[j].Numbered? {
      SomeLast(items, j);
    } else {
      assert IsLast(items, i);
    }
  }

  /** All numbers are below one that the last is near exactly when the last one is before it. */
  lemma BelowExactly(items: seq<Item>, lo: int)
    requires Rising(items) && NearLast(items, lo)
    ensures AllBelow(items, lo) <==> Before(items, lo)
  {
    forall i | IsLast(items, i)
      ensures Diff(items[i].delivery.number % 65536, lo % 65536) < 0 <==> items[i].delivery.number < lo
    {
      assert Diff(items[i].delivery.number % 65536, lo % 65536) == items[i].delivery.number - lo;
    }
    hide Diff;
    forall j | 0 <= j < |items| && items[j].Numbered? && Before(items, lo) ensures items[j].delivery.number < lo {
      SomeLast(items, j);
      var k :| j <= k && IsLast(items, k);
      assert j < k ==> items[j].delivery.number < items[k].delivery.number;
    }
  }

  // ----- a window that delivers -----

  /** Following a window that delivers keeps the order over every run to come exactly when the last number handed over
    * before is before its base, as 16-bit numbers go. */
  lemma JoiningExactly(items: seq<Item>, other: Window)
    requires Sound(other) && other.phase == 2 && Rising(items) && NearLast(items, other.base)
    ensures Before(items, other.base) <==>
      forall ins: seq<Arrival> :: Rising(items + Items(Run(other, ins).delivered))
  {
    hide Insert, Run, InWindow, NearLast, Before;
    BelowExactly(items, other.base);
    if AllBelow(items, other.base) {
      forall ins: seq<Arrival> ensures Rising(items + Items(Run(other, ins).delivered)) {
        ActiveIsOrderly(other, ins);
        RunOrdered(other, ins);
        RisingConcat(items, Run(other, ins).delivered, other.base, Run(other, ins).w.base);
      }
    } else {
      var ins := BaseArrives(other);
      NotRising(items, other.base, Run(other, ins).delivered);
    }
  }

  lemma NotRising(items: seq<Item>, lo: int, ds: seq<Delivery>)
    requires !AllBelow(items, lo) && ds != [] && ds[0].number == lo
    ensures !Rising(items + Items(ds))
  {
    var i :| 0 <= i < |items| && items[i].Numbered? && items[i].delivery.number >= lo;
    var all := items + Items(ds);
    assert all[i] == items[i] && all[|items|].Numbered? && all[|items|].delivery.number == lo;
  }

  lemma RisingConcat(items: seq<Item>, ds: seq<Delivery>, base: int, end: int)
    requires Rising(items) && AllBelow(items, base) && Increasing(ds, base, end)
    ensures Rising(items + Items(ds))
  {
    var all := items + Items(ds);
    forall i, j | 0 <= i < j < |all| && all[i].Numbered? && all[j].Numbered?
      ensures all[i].delivery.number < all[j].delivery.number
    {
      assert all[i] == if i < |items| then items[i] else Numbered(ds[i - |items|]);
      assert all[j] == if j < |items| then items[j] else Numbered(ds[j - |items|]);
    }
  }

  /** A run in which the packet at the base is the next to be delivered: it arrives, and once more if the counter comes
    * round. */
  lemma BaseArrives(w: Window) returns (ins: seq<Arrival>)
    requires Sound(w) && w.phase == 2
    ensures Run(w, ins).delivered != [] && Run(w, ins).delivered[0].number == w.base
  {
    var a := Arrival(w.base % 65536, Buffer(0, []));
    var o := Insert(w, a.seqn, a.packet);
    RunOnce(w, a);
    assert Unwrap(w, a.seqn) == w.base;
    ins := [a];
    if o.delivered == [] {
      var stuck := w.(held := w.held[w.base := a.packet], count := 0);
      assert o.w == stuck;
      RunTwice(w, a);
      FirstFlushed(stuck.(held := stuck.held[w.base := a.packet], count := 1));
      ins := [a, a];
    } else {
      hide Diff, Unwrap;
      FirstDelivered(w, a.packet);
    }
  }

  lemma FirstDelivered(w: Window, buf: Buffer)
    requires ValidSize(w.size) && w.phase == 2
    ensures var o := Insert(w, w.base % 65536, buf); o.delivered != [] ==> o.delivered[0].number == w.base
  {
    assert Unwrap(w, w.base % 65536) == w.base;
    hide ForceFlush, Diff, Unwrap, Collect;
  }

  lemma RunOnce(w: Window, a: Arrival)
    requires ValidSize(w.size)
    ensures var o := Insert(w, a.seqn, a.packet); Run(w, [a]).w == o.w && Run(w, [a]).delivered == o.delivered
  {
    hide Insert;
    assert [a][..0] == [];
  }

  lemma RunTwice(w: Window, a: Arrival)
    requires ValidSize(w.size)
    ensures Run(w, [a]).w.size == w.size
    ensures var first := Run(w, [a]);
      Run(w, [a, a]).delivered == first.delivered + Insert(first.w, a.seqn, a.packet).delivered
  {
    hide Insert;
    assert [a, a][..1] == [a];
  }

  // ----- a window that still collects -----

  /** While a reached window collects, its counter is the number of packets held. */
  ghost predicate Gathering(w: Window) {
    w.phase == 0 || (w.phase == 1 && w.count == |w.held| && w.count < INIT_COLLECT) || w.phase == 2
  }

  lemma GatheringKept(w: Window, seqn: Seq16, b: Buffer)
    requires Sound(w) && Orderly(w, seqn) && Gathering(w)
    ensures Gathering(Insert(w, seqn, b).w)
  {
    var n := Unwrap(w, seqn);
    if w.phase == 0 {
      OneHeld(n, b);
    } else if w.phase == 1 {
      CollectCounts(w, n, b);
      ActivationAdvances(w, seqn, b);
      hide Flush, Collect, SlotTaken, Unwrap, Advances;
    } else {
      InsertAdvances(w, seqn, b);
    }
  }

  lemma OneHeld(n: int, b: Buffer)
    ensures |map[n := b]| == 1
  {
    assert map[n := b].Keys == {n};
  }

  lemma CollectCounts(w: Window, n: int, b: Buffer)
    requires ValidSize(w.size) && w.phase == 1 && w.count == |w.held| && w.count < INIT_COLLECT
    ensures var c := Collect(w, n, b); c.phase == 1 && c.count == |c.held|
  {
    AddKey(w.held, n, b);
    if n in w.held {
      HeldIsTaken(w, n);
    }
    hide SlotTaken;
  }

  lemma HeldIsTaken(w: Window, n: int)
    requires ValidSize(w.size) && n in w.held
    ensures SlotTaken(w, n)
  {
  }

  /** The highest number held, which bounds where delivery can start. */
  ghost predicate IsTop(w: Window, top: int) {
    top in w.held && forall k :: k in w.held ==> k <= top
  }

  /** Following a window that still collects keeps the order over every run to come, of packets near those collected,
    * exactly when the last number handed over before is before the lowest one at which delivery can start: a window
    * below the highest collected. */
  lemma JoiningCollecting(items: seq<Item>, other: Window, top: int)
    requires Sound(other) && other.phase == 1 && Gathering(other) && IsTop(other, top)
    requires Rising(items) && NearLast(items, top - other.size + 1)
    ensures Before(items, top - other.size + 1) <==>
      forall ins: seq<Arrival> :: AllOrderly(other, ins) ==> Rising(items + Items(Run(other, ins).delivered))
  {
    hide Insert, Run, InWindow, NearLast, Before, Orderly, AllOrderly, Gathering;
    var lo := top - other.size + 1;
    BelowExactly(items, lo);
    if AllBelow(items, lo) {
      forall ins: seq<Arrival> | AllOrderly(other, ins) ensures Rising(items + Items(Run(other, ins).delivered)) {
        RunOrdered(other, ins);
        NeverBelow(other, top, ins);
        KeepsRising(items, other, Run(other, ins), lo);
      }
    } else {
      var ins := LowestArrives(other, top);
      NotRising(items, lo, Run(other, ins).delivered);
    }
  }

  lemma KeepsRising(items: seq<Item>, w: Window, r: Outcome, lo: int)
    requires Rising(items) && AllBelow(items, lo) && InOrder(w, r) && w.phase == 1 &&
      (r.delivered != [] ==> r.delivered[0].number >= lo)
    ensures Rising(items + Items(r.delivered))
  {
    if r.delivered == [] {
      assert items + Items(r.delivered) == items;
    } else {
      RisingConcat(items, r.delivered, r.delivered[0].number, r.w.base);
    }
  }

  /** Delivery starts no lower than a window below the highest number collected. */
  lemma {:induction false} NeverBelow(w: Window, top: int, ins: seq<Arrival>)
    requires Sound(w) && w.phase == 1 && IsTop(w, top) && AllOrderly(w, ins)
    ensures var r, lo := Run(w, ins), top - w.size + 1;
      (r.w.phase == 1 ==> top in r.w.held && forall k :: k in r.w.held ==> k >= lo) &&
      (r.delivered != [] ==> r.delivered[0].number >= lo) && (r.w.phase != 1 ==> r.w.phase == 2 && r.delivered != [])
    decreases |ins|
  {
    hide Orderly, AllOrderly, InWindow;
    if ins == [] {
      assert forall k :: k in w.held ==> k >= top - w.size + 1 by { NoLower(w, top); }
    } else {
      var n := |ins| - 1;
      AllOrderlyPrefix(w, ins);
      NeverBelow(w, top, ins[..n]);
      RunOrdered(w, ins[..n]);
      var before := Run(w, ins[..n]);
      hide Insert, Run;
      if before.w.phase == 1 {
        StepNeverBelow(before.w, top, ins[n].seqn, ins[n].packet);
        OneMoreRun(w, ins);
        OneMoreNothing(w, before);
      } else {
        OneMoreRun(w, ins);
        StepStays(before.w, ins[n].seqn, ins[n].packet);
      }
    }
  }

  lemma NoLower(w: Window, top: int)
    requires Sound(w) && IsTop(w, top)
    ensures forall k :: k in w.held ==> k >= top - w.size + 1
  {
  }

  lemma OneMoreNothing(w: Window, r: Outcome)
    requires InOrder(w, r) && r.w.phase == 1
    ensures r.delivered == []
  {
  }

  lemma OneMoreRun(w: Window, ins: seq<Arrival>)
    requires ValidSize(w.size) && ins != []
    ensures var n := |ins| - 1; var before, all := Run(w, ins[..n]), Run(w, ins);
      var o := Insert(before.w, ins[n].seqn, ins[n].packet);
      all.w == o.w && all.delivered == before.delivered + o.delivered
  {
    hide Insert;
  }

  lemma StepStays(w: Window, seqn: Seq16, b: Buffer)
    requires Sound(w) && w.phase == 2
    ensures Insert(w, seqn, b).w.phase == 2
  {
    InsertAdvances(w, seqn, b);
  }

  lemma StepNeverBelow(w: Window, top: int, seqn: Seq16, b: Buffer)
    requires Sound(w) && w.phase == 1 && Orderly(w, seqn) && top in w.held &&
      forall k :: k in w.held ==> k >= top - w.size + 1
    ensures var o, lo := Insert(w, seqn, b), top - w.size + 1;
      if o.w.phase == 1 then o.delivered == [] && top in o.w.held && forall k :: k in o.w.held ==> k >= lo
      else o.w.phase == 2 && o.delivered != [] && o.delivered[0].number >= lo
  {
    var c := Collect(w, Unwrap(w, seqn), b);
    CollectExactly(w, Unwrap(w, seqn), b);
    ActivationAdvances(w, seqn, b);
    hide Flush, SlotTaken, Advances;
    if c.count >= INIT_COLLECT {
      FirstFlushed(c.(phase := 2));
    }
  }

  /** A run in which delivery starts there: the numbers from there on arrive until enough are collected. */
  lemma LowestArrives(w: Window, top: int) returns (ins: seq<Arrival>)
    requires Sound(w) && w.phase == 1 && Gathering(w) && IsTop(w, top)
    ensures AllOrderly(w, ins) && Run(w, ins).delivered != [] && Run(w, ins).delivered[0].number == top - w.size + 1
  {
    NoLower(w, top);
    ins := Fill(w, top - w.size + 1, 0);
  }

  lemma {:induction false} AtLeast(keys: set<int>, lo: int, n: nat)
    requires forall k :: lo <= k < lo + n ==> k in keys
    ensures |keys| >= n
  {
    if n > 0 {
      AtLeast(keys - {lo + n - 1}, lo, n - 1);
    }
  }

  /** The numbers from lo on arrive, the first i of which are held already. */
  lemma {:induction false} Fill(w: Window, lo: int, i: nat) returns (ins: seq<Arrival>)
    requires Sound(w) && w.phase == 1 && Gathering(w) && (forall k :: k in w.held ==> lo <= k < lo + w.size)
    requires (forall k :: lo <= k < lo + i ==> k in w.held) && (i > 0 ==> w.base == lo)
    ensures AllOrderly(w, ins) && Run(w, ins).delivered != [] && Run(w, ins).delivered[0].number == lo
    decreases INIT_COLLECT - i
  {
    AtLeast(w.held.Keys, lo, i);
    assert |w.held.Keys| == |w.held|;
    var a := Arrival((lo + i) % 65536, Buffer(0, []));
    FillStep(w, lo, i, a);
    GatheringKept(w, a.seqn, a.packet);
    InsertSound(w, a.seqn, a.packet);
    var o := Insert(w, a.seqn, a.packet);
    hide Insert, Orderly, AllOrderly, Run, Sound, Gathering;
    RunOnce(w, a);
    if o.w.phase == 2 {
      ins := [a];
      OnlyOrderly(w, a);
    } else {
      var rest := Fill(o.w, lo, i + 1);
      ins := [a] + rest;
      Handoff.RunConcat(w, [a], rest);
      BothOrderly(w, a, rest);
    }
  }

  lemma FillStep(w: Window, lo: int, i: nat, a: Arrival)
    requires Sound(w) && w.phase == 1 && Gathering(w) && (forall k :: k in w.held ==> lo <= k < lo + w.size) &&
      i < INIT_COLLECT
    requires (forall k :: lo <= k < lo + i ==> k in w.held) && (i > 0 ==> w.base == lo) && a.seqn == (lo + i) % 65536
    ensures Orderly(w, a.seqn)
    ensures var o := Insert(w, a.seqn, a.packet);
      (o.w.phase == 2 ==> o.delivered != [] && o.delivered[0].number == lo) && (o.w.phase == 1 || o.w.phase == 2) &&
      (o.w.phase == 1 ==> o.delivered == [] && o.w.size == w.size && o.w.base == lo) &&
      (o.w.phase == 1 ==> forall k :: k in o.w.held ==> lo <= k < lo + w.size) &&
      (o.w.phase == 1 ==> forall k :: lo <= k < lo + i + 1 ==> k in o.w.held)
  {
    var n := lo + i;
    NumberOf(w, lo, n);
    TakenIsHeld(w, lo, n);
    NearAll(w, lo, n);
    var c := Collect(w, n, a.packet);
    CollectExactly(w, n, a.packet);
    ActivationAdvances(w, a.seqn, a.packet);
    hide Flush, SlotTaken, Unwrap, Diff, Advances, Near;
    assert c.base == lo;
    if c.count >= INIT_COLLECT {
      FirstFlushed(c.(phase := 2));
    }
  }

  lemma NumberOf(w: Window, lo: int, n: int)
    requires lo <= n < lo + INIT_COLLECT && lo <= w.base < lo + 512
    ensures Unwrap(w, n % 65536) == n
  {
  }

  lemma NearAll(w: Window, lo: int, n: int)
    requires (forall k :: k in w.held ==> lo <= k < lo + w.size) && lo <= n < lo + w.size
    ensures Near(w, n)
  {
  }

  /** Within one window a slot is taken exactly by its number. */
  lemma TakenIsHeld(w: Window, lo: int, n: int)
    requires ValidSize(w.size) && (forall k :: k in w.held ==> lo <= k < lo + w.size) && lo <= n < lo + w.size
    ensures SlotTaken(w, n) <==> n in w.held
  {
    hide Slot;
    forall k | k in w.held && Slot(k, w.size) == Slot(n, w.size) ensures k == n {
      SameInWindow(w.size, k, n);
    }
  }

  lemma SameInWindow(size: nat, k: int, n: int)
    requires ValidSize(size) && k < n + size && n < k + size && Slot(k, size) == Slot(n, size)
    ensures k == n
  {
    if size == 32 {
      Same32(k, n);
    } else {
      Same512(k, n);
    }
  }

  lemma Same32(k: int, n: int)
    requires k % 32 == n % 32 && k < n + 32 && n < k + 32
    ensures k == n
  {
    assert k == 32 * (k / 32) + k % 32 && n == 32 * (n / 32) + n % 32;
  }

  lemma Same512(k: int, n: int)
    requires k % 512 == n % 512 && k < n + 512 && n < k + 512
    ensures k == n
  {
    assert k == 512 * (k / 512) + k % 512 && n == 512 * (n / 512) + n % 512;
  }

  lemma OnlyOrderly(w: Window, a: Arrival)
    requires ValidSize(w.size) && Orderly(w, a.seqn)
    ensures AllOrderly(w, [a])
  {
    hide Orderly;
    assert [a][..0] == [];
  }

  lemma BothOrderly(w: Window, a: Arrival, rest: seq<Arrival>)
    requires ValidSize(w.size) && Orderly(w, a.seqn) && Insert(w, a.seqn, a.packet).w.size == w.size
    requires AllOrderly(Insert(w, a.seqn, a.packet).w, rest)
    ensures AllOrderly(w, [a] + rest)
  {
    hide Orderly, Insert, Run;
    RunOnce(w, a);
    var ins := [a] + rest;
    forall k | 0 <= k < |ins| ensures Orderly(Run(w, ins[..k]).w, ins[k].seqn) {
      if k == 0 {
        NothingRan(w);
      } else {
        assert ins[..k] == [a] + rest[..k - 1];
        Handoff.RunConcat(w, [a], rest[..k - 1]);
      }
    }
  }

  lemma NothingRan(w: Window)
    requires ValidSize(w.size)
    ensures Run(w, []).w == w
  {
  }

  // ----- a new window -----

  /** Following a window that has seen nothing never keeps the order for sure once a number was handed over: that number
    * can be the first to arrive. */
  lemma JoiningNew(items: seq<Item>, i: int, other: Window)
    requires Sound(other) && other.phase == 0 && IsLast(items, i) &&
      -32768 <= items[i].delivery.number - other.base < 32768
    ensures exists ins: seq<Arrival> :: AllOrderly(other, ins) && !Rising(items + Items(Run(other, ins).delivered))
  {
    var n := items[i].delivery.number;
    var a := Arrival(n % 65536, Buffer(0, []));
    assert Unwrap(other, a.seqn) == n;
    GatheringKept(other, a.seqn, a.packet);
    InsertSound(other, a.seqn, a.packet);
    var w := Insert(other, a.seqn, a.packet).w;
    hide Insert, AllOrderly, Run, Sound, Gathering, Unwrap;
    var rest := LowestArrives(w, n);
    RunOnce(other, a);
    Handoff.RunConcat(other, [a], rest);
    BothOrderly(other, a, rest);
    assert !AllBelow(items, n - w.size + 1);
    NotRising(items, n - w.size + 1, Run(other, [a] + rest).delivered);
  }
}
