/** Subscribers of a shared multicast source: private and shared output, batching, joining, leaving, and moving between
  * them. */
module Multicast {

  import opened Sequences
  import opened ReorderModel
  import opened DeliveryLog
  import Handoff

  const BATCH_SIZE: nat := 65536

  /** What can be had during a call. A view or room in the send queue may depend on how much a subscriber was sent
    * already, a new batch on which of the payloads of the call asks for it; `stops` tells whose unicast server could be
    * told to stop. */
  datatype Means = Means(views: (Session, nat) -> bool, accepts: (Session, nat) -> bool, batch: nat -> bool,
                         windows: Session -> bool, copies: Session -> bool, stops: Session -> bool)

  class Session {
    var source: Source?
    var batched: bool
    var failed: bool
    var out: seq<Byte>
    var window: Window
    var closing: bool
    const snapshot: bool
    const fecInitialized: bool
    var fecEnabled: bool
    var fcc: Fcc

    /** Packets that wait until the unicast stream has ended. */
    var waiting: seq<Packet>

    ghost var line: Line

    /** Something could not be queued, or went out in a form that is not modelled. */
    ghost var missed: bool

    /** Which of the numbers 65536 apart a packet has is a matter of naming; `near` says about where the stream
      * stands. */
    constructor (snapshot: bool, fecInitialized: bool, fecEnabled: bool, fcc: Fcc, size: nat, near: int)
      requires ValidSize(size)
      ensures source == null && !batched && !failed && !closing && out == [] && waiting == [] && Private()
      ensures line == Line([], [], 0, 0, true)
      ensures this.snapshot == snapshot && this.fecInitialized == fecInitialized && this.fecEnabled == fecEnabled
      ensures this.fcc == fcc && line.clean && !missed
      ensures window == NewNear(size, near)
    {
      source, batched, failed, closing, out, waiting := null, false, false, false, [], [];
      this.snapshot, this.fecInitialized, this.fecEnabled, this.fcc := snapshot, fecInitialized, fecEnabled, fcc;
      window := NewNear(size, near);
      line, missed := Line([], [], 0, 0, true), false;
    }

    /** What went out is the payloads handed over, and these are accounted for against the window. */
    ghost predicate Private()
      reads this`out, this`window, this`line, this`missed
    {
      Straight(window, line) && Paid()
    }

    ghost predicate Paid()
      reads this`out, this`line, this`missed
    {
      !missed ==> out == line.base + Payloads(line.trace)
    }

    /** The send queue takes whatever comes. */
    ghost predicate Willing(accepts: (Session, nat) -> bool) {
      !snapshot && forall n :: accepts(this, n)
    }

    /** Send one payload, unless the queue refuses it; a snapshot is made of it instead. */
    method Queue(item: Item, accepts: (Session, nat) -> bool)
      requires Paid()
      modifies this`out, this`line, this`missed
      ensures Paid() && line == old(line).(trace := old(line).trace + [item])
      ensures missed == (old(missed) || snapshot || !accepts(this, |old(out)|))
      ensures out == if !snapshot && accepts(this, |old(out)|) then old(out) + item.Bytes() else old(out)
    {
      hide Payloads, Item.Bytes;
      if !missed {
        PaidOne(line.base, line.trace, item, out);
      }
      line := line.(trace := line.trace + [item]);
      if snapshot {
        missed := true;
      } else if accepts(this, |out|) {
        out := out + item.Bytes();
      } else {
        missed := true;
      }
    }

    method QueueAll(items: seq<Item>, accepts: (Session, nat) -> bool)
      requires Paid()
      modifies this`out, this`line, this`missed
      ensures Paid() && line == old(line).(trace := old(line).trace + items)
      ensures Willing(accepts) ==> missed == old(missed)
    {
      assert items[..0] == [];
      for i := 0 to |items|
        invariant Paid() && line == old(line).(trace := old(line).trace + items[..i])
        invariant Willing(accepts) ==> missed == old(missed)
      {
        Queue(items[i], accepts);
        assert items[..i] + [items[i]] == items[..i + 1];
      }
      assert items[..|items|] == items;
    }

    /** The subscriber as a value, and what does not change about it while packets arrive. */
    ghost function Stand(): Member
      reads this`window, this`line, this`failed, this`waiting, this`fecEnabled, this`batched
    {
      Member(Place(window, line), failed, waiting, fecEnabled, batched)
    }

    ghost function Self(): Who
      reads this`fcc, this`closing
    {
      Who(fcc, fecInitialized, closing, snapshot)
    }

    /** Take in one packet of one's own. Media packets pass through the window; from the first parity packet on they are
      * handled in another way, and nothing is claimed of them. */
    method Process(p: Packet, accepts: (Session, nat) -> bool)
      requires Private()
      modifies this`out, this`window, this`line, this`missed, this`fecEnabled
      ensures Private() && ValidSize(old(window).size) && Stand() == TakeIn(old(Stand()), fecInitialized, p)
      ensures fecEnabled == (old(fecEnabled) || (fecInitialized && p == Parity(true)))
      ensures Willing(accepts) && !(old(fecEnabled) && p.Media?) ==> missed == old(missed)
    {
      ghost var at := Place(window, line);
      FollowStraight(at, p);
      hide Handled, Tame, Payloads, Sound, Accounted;
      if p.Malformed? || p.Parity? {
        fecEnabled := fecEnabled || (fecInitialized && p == Parity(true));
      } else if fecEnabled && p.Media? {
        missed := true;
        line := line.(clean := false);
      } else {
        var e := Handled(window, p);
        window := e.w;
        QueueAll(e.items, accepts);
        line := line.(lost := line.lost + e.lost, clean := line.clean && Tame(at.w, p));
      }
    }

    method ProcessAll(ps: seq<Packet>, accepts: (Session, nat) -> bool)
      requires Private()
      modifies this`out, this`window, this`line, this`missed, this`fecEnabled
      ensures Private() && ValidSize(old(window).size) && Stand() == TakeInAll(old(Stand()), fecInitialized, ps)
      ensures Willing(accepts) && (!fecEnabled || NoMedia(ps)) ==> missed == old(missed)
    {
      hide Private, TakeIn, TakeInAll;
      SizeIsValid();
      NothingTaken(Stand(), fecInitialized);
      assert ps[..0] == [];
      for i := 0 to |ps|
        invariant Private() && Stand() == TakeInAll(old(Stand()), fecInitialized, ps[..i])
        invariant Willing(accepts) && (!fecEnabled || NoMedia(ps)) ==> missed == old(missed)
      {
        TakeInOne(old(Stand()), fecInitialized, ps[..i], ps[i]);
        FecStays(Stand(), fecInitialized, ps[i]);
        assert ps[..i] + [ps[i]] == ps[..i + 1];
        Process(ps[i], accepts);
      }
      assert ps[..|ps|] == ps;
    }

    lemma StandsThere()
      ensures Stand().at.w == window && Stand().batched == batched
    {
    }

    lemma SizeIsValid()
      requires Private()
      ensures ValidSize(window.size)
    {
    }

    /** A packet arrives for this subscriber alone; `view` tells whether it can have a view of it. */
    method Receive(p: Packet, view: bool, m: Means)
      requires Private()
      modifies this`out, this`window, this`line, this`missed, this`fecEnabled, this`waiting, this`failed
      ensures Private() && ValidSize(old(window).size) &&
        Stand() == Reception(old(Stand()), Self(), p, view, m.stops(this))
      ensures Willing(m.accepts) && (!fecEnabled || (p.Parity? && old(waiting) == [])) ==> missed == old(missed)
    {
      hide Private, TakeInAll;
      SizeIsValid();
      if failed || closing || !view {
        return;
      }
      match fcc {
        case NoFcc => ProcessAll([p], m.accepts);
        case Active =>
          var ps := waiting + [p];
          waiting := [];
          ProcessAll(ps, m.accepts);
        case Requested =>
          if p != Malformed {
            if m.stops(this) {
              waiting := waiting + [p];
            } else {
              failed := true;
            }
          }
        case OtherFcc =>
      }
    }
  }

  /** The second list picks some of the first, each at most once. */
  ghost predicate Picks(all: seq<Session>, some: seq<Session>) {
    Distinct(all) && Distinct(some) && forall s :: s in some ==> s in all
  }

  /** The batched subscribers are exactly those that do not get single packets. */
  ghost predicate Flags(all: seq<Session>, packet: seq<Session>)
    reads all`batched
  {
    forall s :: s in all ==> (s.batched <==> s !in packet)
  }

  /** The number of batched subscribers is what the lists leave over. */
  lemma BatchedCount(all: seq<Session>, packet: seq<Session>)
    requires Picks(all, packet) && Flags(all, packet)
    ensures |set s | s in all && s.batched| == |all| - |packet|
  {
    DistinctCard(all);
    DistinctCard(packet);
    assert (set s | s in all && s.batched) == ToSet(all) - ToSet(packet);
    assert ToSet(packet) <= ToSet(all);
  }

  lemma PickedAre(all: seq<Session>, some: seq<Session>)
    requires Picks(all, some)
    ensures Distinct(all)
  {
  }

  lemma PicksAmong(all: seq<Session>, some: seq<Session>, s: Session)
    requires Picks(all, some) && s !in all
    ensures Picks([s] + all, some) && s !in some
  {
  }

  lemma PicksMore(all: seq<Session>, some: seq<Session>, s: Session)
    requires Picks(all, some) && s in all && s !in some
    ensures Picks(all, [s] + some)
  {
  }

  lemma AllPicked(all: seq<Session>, some: seq<Session>)
    requires Picks(all, some) && forall s :: s in all ==> s in some
    ensures |some| == |all|
  {
    DistinctCard(all);
    DistinctCard(some);
    assert ToSet(all) == ToSet(some);
  }

  /** Where a batched subscriber comes in does not change, and unless something was missed it is up to date. */
  ghost predicate Lines(all: seq<Session>, log: seq<Item>, pending: seq<Byte>)
    reads all`batched, all`line, all`out, all`missed
  {
    forall s :: s in all && s.batched ==> s.line.since <= |log| && (!s.missed ==> UpToDate(s.line, s.out, log, pending))
  }

  /** What batched subscribers are handed is accounted for against the shared window. */
  ghost predicate Orders(all: seq<Session>, log: seq<Item>, w: Window, lost: nat, orderly: bool)
    reads all`batched, all`line
  {
    forall s :: s in all && s.batched && s.line.clean && orderly ==> InLine(s.line, log, w, lost)
  }

  ghost predicate Privates(all: seq<Session>)
    reads all`batched, all`line, all`out, all`missed, all`window
  {
    forall s :: s in all && !s.batched ==> s.Private()
  }

  /** What identifies a source: poller, interface, endpoint, source filter and port of the parity stream. */
  datatype Key = Key(poller: int, ifindex: nat, address: seq<Byte>, filter: seq<Byte>, fecPort: nat)

  class Source {
    const key: Key
    var failed: bool
    var refs: nat
    var batchClients: nat
    var sharedOutput: bool
    var packetType: nat
    var window: Window
    var batch: Option<seq<Byte>>
    var subscribers: seq<Session>
    var packetSubscribers: seq<Session>

    /** Everything that was appended for the batched subscribers, and how many numbers were given up. */
    ghost var log: seq<Item>
    ghost var lost: nat

    /** The numbers collected first were near each other. */
    ghost var orderly: bool

    /** Sources without a parity stream order packets once for everybody. */
    constructor (key: Key)
      ensures Valid() && !failed && refs == 0 && subscribers == [] && batch == None && log == []
      ensures this.key == key && AsGroup() == Group(New(32), [], 0, true, key.fecPort == 0, 0)
    {
      this.key := key;
      failed, refs, batchClients, packetType := false, 0, 0, 0;
      sharedOutput := key.fecPort == 0;
      window := New(32);
      batch, subscribers, packetSubscribers, log, lost, orderly := None, [], [], [], 0, true;
    }

    /** The source as a value. */
    ghost function AsGroup(): Group
      reads this`window, this`log, this`lost, this`orderly, this`sharedOutput, this`packetType
    {
      Group(window, log, lost, orderly, sharedOutput, packetType)
    }

    function Pending(): seq<Byte>
      reads this`batch
    {
      if batch.None? then [] else batch.value
    }

    ghost predicate Counted()
      reads this`refs, this`batchClients, this`subscribers, this`packetSubscribers
    {
      Picks(subscribers, packetSubscribers) && refs == |subscribers| && batchClients + |packetSubscribers| == refs
    }

    ghost predicate Flagged()
      reads this`subscribers, this`packetSubscribers, subscribers`batched
    {
      Flags(subscribers, packetSubscribers)
    }

    ghost predicate Mine()
      reads this`subscribers, subscribers`source
    {
      forall s :: s in subscribers ==> s.source == this
    }

    ghost predicate Delivered(pending: seq<Byte>)
      reads this`subscribers, this`log, subscribers`batched, subscribers`line, subscribers`out, subscribers`missed
    {
      Lines(subscribers, log, pending)
    }

    ghost predicate Alone()
      reads this`subscribers, subscribers`batched, subscribers`line, subscribers`out, subscribers`missed,
        subscribers`window
    {
      Privates(subscribers)
    }

    ghost predicate Bounded()
      reads this`batch
    {
      |Pending()| <= BATCH_SIZE
    }

    /** All but the order of what was handed over. */
    ghost predicate Consistent()
      reads this`refs, this`batchClients, this`subscribers, this`packetSubscribers, this`log, this`batch
      reads subscribers`batched, subscribers`source, subscribers`line, subscribers`out, subscribers`missed,
        subscribers`window
    {
      Counted() && Flagged() && Mine() && Delivered(Pending()) && Alone() && Bounded()
    }

    ghost predicate InOrder()
      reads this`window, this`orderly, this`subscribers, this`log, this`lost, subscribers`batched, subscribers`line
    {
      ValidSize(window.size) && (orderly ==> Sound(window)) && Orders(subscribers, log, window, lost, orderly)
    }

    ghost predicate Valid()
      reads this`refs, this`batchClients, this`subscribers, this`packetSubscribers, this`log, this`batch, this`window,
        this`orderly, this`lost
      reads subscribers`batched, subscribers`source, subscribers`line, subscribers`out, subscribers`missed,
        subscribers`window
    {
      Consistent() && InOrder()
    }

    /** Whether bytes can be queued for a subscriber now; a lone subscriber needs no view. */
    predicate Takes(s: Session, m: Means)
      reads this`refs, s`failed, s`closing, s`out
    {
      !s.failed && !s.closing && (refs == 1 || m.views(s, |s.out|)) && m.accepts(s, |s.out|)
    }

    /** Whether a subscriber takes whatever comes. */
    ghost predicate Able(s: Session, m: Means)
      reads this`refs, s`failed, s`closing
    {
      !s.failed && !s.closing && forall n :: (refs == 1 || m.views(s, n)) && m.accepts(s, n)
    }

    /** Whether every view can be had that a subscriber needs. */
    ghost predicate Viewed(s: Session, m: Means)
      reads this`refs
    {
      refs == 1 || forall n :: m.views(s, n)
    }

    /** Whether there is a view of what goes out now. */
    ghost predicate Lent(s: Session, m: Means)
      reads this`refs, s`out
    {
      refs == 1 || m.views(s, |s.out|)
    }

    /** What became of a subscriber when bytes were queued for it, or could not be. */
    ghost predicate Served(s: Session, out: seq<Byte>, missed: bool, failed: bool, takes: bool, lent: bool,
      bytes: seq<Byte>)
      reads s`batched, s`out, s`missed, s`failed, s`closing
    {
      s.out == (if s.batched && takes then out + bytes else out) &&
      s.missed == (missed || (s.batched && !takes)) &&
      s.failed == (failed || (s.batched && !s.closing && !lent))
    }

    /** A subscriber of single packets is left alone; one that takes whatever comes misses nothing, and one that can
      * have every view it needs does not fail. */
    static ghost predicate Spared(s: Session, batched: bool, out: seq<Byte>, missed: bool, failed: bool, able: bool,
      viewed: bool)
      reads s`out, s`missed, s`failed
    {
      (!batched ==> s.out == out) && (!batched || able ==> s.missed == missed) &&
      (!batched || able || viewed ==> s.failed == failed) &&
      (failed ==> s.failed) && (missed ==> s.missed)
    }

    /** Queue bytes for every batched subscriber. */
    method Fanout(bytes: seq<Byte>, m: Means)
      requires Counted() && Delivered(bytes) && Alone()
      modifies subscribers`missed, subscribers`out, subscribers`failed
      ensures Delivered([]) && Alone()
      ensures forall s :: s in subscribers ==>
        Served(s, old(s.out), old(s.missed), old(s.failed), old(Takes(s, m)), old(Lent(s, m)), bytes)
    {
      hide UpToDate, Session.Private;
      forall s | s in subscribers && s.batched && !s.missed ensures UpToDate(s.line, s.out + bytes, log, []) {
        Sent(s.line, s.out, log, bytes);
      }
      for i := 0 to |subscribers|
        invariant forall j :: 0 <= j < i ==> var s := subscribers[j];
          Served(s, old(s.out), old(s.missed), old(s.failed), old(Takes(s, m)), old(Lent(s, m)), bytes)
        invariant forall j :: i <= j < |subscribers| ==> var s := subscribers[j];
          s.out == old(s.out) && s.missed == old(s.missed) && s.failed == old(s.failed)
      {
        Deliver(subscribers[i], bytes, m);
      }
    }

    /** Queue bytes for one subscriber, if it is batched and can take them. */
    method Deliver(s: Session, bytes: seq<Byte>, m: Means)
      modifies s`out, s`missed, s`failed
      ensures Served(s, old(s.out), old(s.missed), old(s.failed), old(Takes(s, m)), old(Lent(s, m)), bytes)
    {
      if !s.batched || s.failed || s.closing {
        s.missed := s.missed || s.batched;
        return;
      }
      if refs != 1 && !m.views(s, |s.out|) {
        s.failed := true;
        s.missed := true;
        return;
      }
      if m.accepts(s, |s.out|) {
        s.out := s.out + bytes;
      } else {
        s.missed := true;
      }
    }

    /** Hand the pending batch to the subscribers. */
    method Flush(m: Means)
      requires Consistent()
      modifies this`batch, subscribers`missed, subscribers`out, subscribers`failed
      ensures Consistent() && batch == None
      ensures old(batch) != None ==> forall s :: s in subscribers ==>
        Served(s, old(s.out), old(s.missed), old(s.failed), old(Takes(s, m)), old(Lent(s, m)), old(Pending()))
      ensures old(batch) == None ==> forall s :: s in subscribers ==>
        s.out == old(s.out) && s.missed == old(s.missed) && s.failed == old(s.failed)
      ensures forall s :: s in subscribers ==>
        Spared(s, old(s.batched), old(s.out), old(s.missed), old(s.failed), old(Able(s, m)), old(Viewed(s, m)))
    {
      hide Lines, Flags, Picks, Privates;
      if batch == None {
        return;
      }
      var bytes := batch.value;
      assert forall s :: s in subscribers && Able(s, m) ==> Takes(s, m);
      batch := None;
      Fanout(bytes, m);
    }

    /** Add a payload to the batch and to the log; `memory` tells whether a new batch can be had. */
    method Append(item: Item, memory: bool, m: Means)
      requires Consistent()
      modifies this`batch, this`log, subscribers`missed, subscribers`out, subscribers`failed
      ensures Consistent() && log == old(log) + [item]
      ensures batchClients > 0 && memory && |old(Pending())| + |item.Bytes()| < BATCH_SIZE ==>
        Pending() == old(Pending()) + item.Bytes()
      ensures batchClients > 0 && memory && |old(Pending())| + |item.Bytes()| == BATCH_SIZE ==> batch == None
      ensures batchClients > 0 && memory && |old(Pending())| + |item.Bytes()| > BATCH_SIZE ==> Pending() == item.Bytes()
      ensures batchClients == 0 ==> batch == old(batch)
      ensures !memory && old(batch) == None ==> batch == None
      ensures forall s :: s in subscribers ==>
        Spared(s, old(s.batched), old(s.out), old(s.missed), old(s.failed), old(Able(s, m)), old(Viewed(s, m)))
    {
      hide Flags, Picks, Lines, Privates, Able, Takes, Served;
      if batchClients == 0 {
        GrowUnheard(item);
        return;
      }
      MakeRoom(|item.Bytes()|, m);
      Grow(item);
      Put(item.Bytes(), memory, m);
    }

    /** Flush before crossing the cap. */
    method MakeRoom(n: nat, m: Means)
      requires Consistent() && n <= BUFFER_SIZE
      modifies this`batch, subscribers`missed, subscribers`out, subscribers`failed
      ensures Consistent() && |Pending()| + n <= BATCH_SIZE
      ensures |old(Pending())| + n <= BATCH_SIZE ==> Pending() == old(Pending())
      ensures old(batch) == None ==> batch == None
      ensures |old(Pending())| + n > BATCH_SIZE ==> batch == None
      ensures forall s :: s in subscribers ==>
        Spared(s, old(s.batched), old(s.out), old(s.missed), old(s.failed), old(Able(s, m)), old(Viewed(s, m)))
    {
      hide Flags, Picks, Lines, Privates, Able, Takes, Served, Distinct;
      if batch != None && n > BATCH_SIZE - |batch.value| {
        Flush(m);
      }
    }

    /** Bytes that belong to the log go to the batch, or out by themselves when no batch can be had. */
    method Put(bytes: seq<Byte>, memory: bool, m: Means)
      requires Counted() && Flagged() && Mine() && Delivered(Pending() + bytes) && Alone() &&
        |Pending()| + |bytes| <= BATCH_SIZE
      modifies this`batch, subscribers`missed, subscribers`out, subscribers`failed
      ensures Consistent()
      ensures memory && |old(Pending())| + |bytes| < BATCH_SIZE ==> Pending() == old(Pending()) + bytes
      ensures memory && |old(Pending())| + |bytes| == BATCH_SIZE ==> batch == None
      ensures !memory && old(batch) == None ==> batch == None
      ensures forall s :: s in subscribers ==>
        Spared(s, old(s.batched), old(s.out), old(s.missed), old(s.failed), old(Able(s, m)), old(Viewed(s, m)))
    {
      hide Flags, Picks, Lines, Privates, Able, Takes, Served;
      if batch == None {
        assert Pending() + bytes == bytes;
        if !memory {
          FanoutNow(bytes, m);
          return;
        }
        batch := Some([]);
      }
      batch := Some(batch.value + bytes);
      if |batch.value| == BATCH_SIZE {
        Flush(m);
      }
    }

    /** A payload for which no batch can be had goes out by itself. */
    method FanoutNow(bytes: seq<Byte>, m: Means)
      requires Counted() && Flagged() && Mine() && Delivered(bytes) && Alone() && batch == None
      modifies subscribers`missed, subscribers`out, subscribers`failed
      ensures Consistent()
      ensures forall s :: s in subscribers ==>
        Spared(s, old(s.batched), old(s.out), old(s.missed), old(s.failed), old(Able(s, m)), old(Viewed(s, m)))
    {
      hide Flags, Picks, Lines, Privates;
      assert forall s :: s in subscribers && Able(s, m) ==> Takes(s, m);
      Fanout(bytes, m);
    }

    /** The payload belongs to the log; it is still to be sent. */
    ghost method Grow(item: Item)
      requires Delivered(Pending())
      modifies this`log
      ensures Delivered(Pending() + item.Bytes()) && log == old(log) + [item]
    {
      hide UpToDate;
      forall s | s in subscribers && s.batched && !s.missed
        ensures UpToDate(s.line, s.out, log + [item], Pending() + item.Bytes()) {
        StillUpToDate(s.line, s.out, log, Pending(), item);
      }
      log := log + [item];
    }

    /** Nobody is batched, so nobody misses the payload. */
    ghost method GrowUnheard(item: Item)
      requires Counted() && Flagged() && batchClients == 0
      modifies this`log
      ensures Delivered(Pending()) && log == old(log) + [item]
    {
      NobodyBatched();
      log := log + [item];
    }

    lemma NobodyBatched()
      requires Counted() && Flagged() && batchClients == 0
      ensures forall s :: s in subscribers ==> !s.batched
    {
      BatchedCount(subscribers, packetSubscribers);
      var batched := set s | s in subscribers && s.batched;
      forall s | s in subscribers ensures !s.batched {
        assert s !in batched;
      }
    }

    /** Append what the shared window hands over, in order. */
    method AppendAll(items: seq<Item>, m: Means)
      requires Consistent()
      modifies this`batch, this`log, subscribers`missed, subscribers`out, subscribers`failed
      ensures Consistent() && log == old(log) + items
      ensures forall s :: s in subscribers ==>
        Spared(s, old(s.batched), old(s.out), old(s.missed), old(s.failed), old(Able(s, m)), old(Viewed(s, m)))
    {
      hide Consistent, Item.Bytes;
      assert items[..0] == [];
      for i := 0 to |items|
        invariant Consistent() && log == old(log) + items[..i]
        invariant forall s :: s in subscribers ==>
          Spared(s, old(s.batched), old(s.out), old(s.missed), old(s.failed), old(Able(s, m)), old(Viewed(s, m)))
      {
        Append(items[i], m.batch(i), m);
        assert items[..i] + [items[i]] == items[..i + 1];
      }
      assert items[..|items|] == items;
    }

    /** A packet of the shared output: media packets pass through the shared window, bare payloads do not. */
    method Share(p: Packet, m: Means)
      requires Valid()
      modifies this`batch, this`log, this`window, this`lost, this`orderly, subscribers`missed, subscribers`out,
        subscribers`failed
      ensures Valid() && ValidSize(old(window).size) && window == Handled(old(window), p).w &&
        log == old(log) + Handled(old(window), p).items
      ensures lost == old(lost) + Handled(old(window), p).lost && orderly == (old(orderly) && Tame(old(window), p))
      ensures forall s :: s in subscribers ==>
        Spared(s, old(s.batched), old(s.out), old(s.missed), old(s.failed), old(Able(s, m)), old(Viewed(s, m)))
    {
      hide Consistent, InOrder, Handled, Tame, Spared, Sound, Orders;
      StaysInOrder(p);
      var e := Handled(window, p);
      ghost var tame := Tame(window, p);
      AppendAll(e.items, m);
      window := e.w;
      lost := lost + e.lost;
      orderly := orderly && tame;
      Ordered();
    }

    lemma Ordered()
      requires ValidSize(window.size) && (orderly ==> Sound(window)) && Orders(subscribers, log, window, lost, orderly)
      ensures InOrder()
    {
    }

    lemma StaysInOrder(p: Packet)
      requires InOrder()
      ensures ValidSize(window.size) && ValidSize(Handled(window, p).w.size)
      ensures orderly && Tame(window, p) ==> Sound(Handled(window, p).w)
      ensures var e := Handled(window, p);
        Orders(subscribers, log + e.items, e.w, lost + e.lost, orderly && Tame(window, p))
    {
      hide Handled, Tame, Sound, InLine;
      var e := Handled(window, p);
      HandledSize(window, p);
      if orderly && Tame(window, p) {
        NothingYetIsSound(window, p);
        forall s | s in subscribers && s.batched && s.line.clean
          ensures InLine(s.line, log + e.items, e.w, lost + e.lost) {
          StillInLine(s.line, log, window, lost, p);
        }
      }
    }

    // ----- single packets -----

    /** Whether a subscriber of single packets gets the packet: a lone one without shared output needs no view. */
    predicate Seen(s: Session, m: Means)
      reads this`refs, this`sharedOutput, s`out
    {
      (refs == 1 && !sharedOutput) || m.views(s, |s.out|)
    }

    /** A subscriber of single packets took the packet in, and missed nothing that its queue would take. */
    static ghost predicate Took(s: Session, before: Member, p: Packet, view: bool, missed: bool, m: Means)
      requires ValidSize(before.at.w.size)
      reads s`batched, s`window, s`line, s`failed, s`waiting, s`fecEnabled, s`missed, s`fcc, s`closing
    {
      s.Stand() == Reception(before, s.Self(), p, view, m.stops(s)) &&
      (s.Willing(m.accepts) && (!s.fecEnabled || (p.Parity? && before.waiting == [])) ==> s.missed == missed)
    }

    /** Hand the packet to every subscriber of single packets. */
    method DeliverAll(p: Packet, m: Means)
      requires Valid()
      modifies packetSubscribers`out, packetSubscribers`window, packetSubscribers`line, packetSubscribers`missed
      modifies packetSubscribers`fecEnabled, packetSubscribers`waiting, packetSubscribers`failed
      ensures Valid()
      ensures forall s :: s in packetSubscribers ==> ValidSize(old(s.window).size)
      ensures forall s :: s in packetSubscribers ==> Took(s, old(s.Stand()), p, old(Seen(s, m)), old(s.missed), m)
    {
      hide Session.Private, UpToDate, InLine, Took, Seen, Session.Stand, Session.Self, Sound, Counted, Flagged, Mine,
        Bounded;
      PacketOnly();
      DeliverEach(p, m);
    }

    method DeliverEach(p: Packet, m: Means)
      requires Distinct(packetSubscribers) && forall s :: s in packetSubscribers ==> s.Private() && !s.batched
      modifies packetSubscribers`out, packetSubscribers`window, packetSubscribers`line, packetSubscribers`missed
      modifies packetSubscribers`fecEnabled, packetSubscribers`waiting, packetSubscribers`failed
      ensures forall s :: s in packetSubscribers ==> s.Private() && ValidSize(old(s.window).size)
      ensures forall s :: s in packetSubscribers ==> Took(s, old(s.Stand()), p, old(Seen(s, m)), old(s.missed), m)
    {
      hide Session.Private, Session.Stand, Seen, Took, ValidSize;
      forall s | s in packetSubscribers ensures s.Stand().at.w == s.window && ValidSize(s.window.size) {
        s.SizeIsValid();
        s.StandsThere();
      }
      for i := 0 to |packetSubscribers|
        invariant forall s :: s in packetSubscribers ==> s.Private()
        invariant forall j :: 0 <= j < i ==> var s := packetSubscribers[j];
          Took(s, old(s.Stand()), p, old(Seen(s, m)), old(s.missed), m)
        invariant forall j :: i <= j < |packetSubscribers| ==> unchanged(packetSubscribers[j])
      {
        Hand(packetSubscribers[i], p, m);
      }
    }

    method Hand(s: Session, p: Packet, m: Means)
      requires s.Private() && !s.batched
      modifies s`out, s`window, s`line, s`missed, s`fecEnabled, s`waiting, s`failed
      ensures s.Private() && ValidSize(old(s.window).size)
      ensures Took(s, old(s.Stand()), p, old(Seen(s, m)), old(s.missed), m)
    {
      hide Reception, Session.Private, Session.Willing;
      s.SizeIsValid();
      s.Receive(p, Seen(s, m), m);
    }

    lemma PacketOnly()
      requires Consistent()
      ensures Distinct(packetSubscribers)
      ensures forall s :: s in packetSubscribers ==> s in subscribers && !s.batched && s.Private()
      ensures forall s :: s in subscribers && s !in packetSubscribers ==> s.batched
    {
    }

    // ----- joining the shared output, and leaving it -----

    /** Whether a subscriber can follow the shared batches from here on. */
    predicate Ready(s: Session)
      reads this`packetType, this`window, s`failed, s`closing, s`fecEnabled, s`fcc, s`waiting, s`window
    {
      !s.failed && !s.closing && !s.snapshot && !s.fecEnabled &&
      (s.fcc == NoFcc || (s.fcc == Active && s.waiting == [])) &&
      (packetType == 0 || Handoff.AtBoundary(s.window, window))
    }

    /** Somebody can be moved to the shared batches. */
    ghost predicate AnyReady()
      reads this`packetType, this`window, this`packetSubscribers, packetSubscribers`failed, packetSubscribers`closing,
        packetSubscribers`fecEnabled, packetSubscribers`fcc, packetSubscribers`waiting, packetSubscribers`window
    {
      exists k :: 0 <= k < |packetSubscribers| && Ready(packetSubscribers[k])
    }

    /** The line of a subscriber that follows the shared output from here on. */
    ghost function Joined(line: Line, w: Window): Line
      reads this`window, this`log, this`lost, this`orderly, this`sharedOutput, this`packetType
    {
      JoinedLine(line, w, AsGroup())
    }

    /** A subscriber that follows the shared output from here on. */
    ghost function Joins(mb: Member): Member
      reads this`window, this`log, this`lost, this`orderly, this`sharedOutput, this`packetType
    {
      mb.(batched := true, at := Place(mb.at.w, Joined(mb.at.line, mb.at.w)))
    }

    /** A subscriber of single packets follows the shared batches from here on. */
    method Promote(s: Session, i: nat)
      requires Valid() && batch == None && i < |packetSubscribers| && packetSubscribers[i] == s
      modifies this`packetSubscribers, this`batchClients, s`batched, s`line
      ensures Valid() && |packetSubscribers| == |old(packetSubscribers)| - 1
      ensures packetSubscribers[..i] == old(packetSubscribers)[..i]
      ensures forall t :: t in packetSubscribers <==> t in old(packetSubscribers) && t != s
      ensures s.batched && s.line == Joined(old(s.line), s.window)
    {
      hide UpToDate, InLine, Accounted, Story, Sound, Session.Private, Follows, RemoveAt;
      assert s in packetSubscribers;
      PacketOnly();
      RemoveAtFacts(packetSubscribers, i);
      RemoveAtFront(packetSubscribers, i);
      JoinedInLine(s);
      batchClients := batchClients + 1;
      packetSubscribers := RemoveAt(packetSubscribers, i);
      s.line := Joined(s.line, s.window);
      s.batched := true;
    }

    lemma JoinedInLine(s: Session)
      requires s.Private()
      ensures var line := Joined(s.line, s.window);
        line.since == |log| && (!s.missed ==> UpToDate(line, s.out, log, [])) &&
        (line.clean ==> InLine(line, log, window, lost))
    {
      var line := Joined(s.line, s.window);
      assert Story(line, log) == s.line.trace;
      assert s.out + [] == s.out;
      if line.clean {
        AccountedElsewhere(s.line.trace, s.window, window, s.line.lost);
      }
    }

    /** What is pending goes out to those who are batched. */
    method Settle(m: Means)
      requires Valid()
      modifies this`batch, subscribers`missed, subscribers`out, subscribers`failed
      ensures Valid() && batch == None
      ensures old(batch) == None ==> forall s :: s in subscribers ==>
        s.out == old(s.out) && s.missed == old(s.missed) && s.failed == old(s.failed)
      ensures forall s :: s in subscribers ==>
        Spared(s, old(s.batched), old(s.out), old(s.missed), old(s.failed), old(Able(s, m)), old(Viewed(s, m)))
      ensures forall s :: s in packetSubscribers ==> s in subscribers && !s.batched && Ready(s) == old(Ready(s))
    {
      hide Lines, Picks, Privates, Served, Orders, Able, Counted, Flagged, Mine, Delivered, Bounded, Sound,
        Session.Private;
      PacketOnly();
      Flush(m);
    }

    /** Halfway through the list: those that left it were ready and follow the shared output, the others are as they
      * were. */
    ghost predicate Sorted(i: nat, ready: set<Session>, lines: map<Session, Line>)
      reads this, packetSubscribers, lines.Keys
    {
      i <= |packetSubscribers| &&
      (forall s :: s in packetSubscribers ==>
        s in lines && s in subscribers && s.line == lines[s] && (Ready(s) <==> s in ready)) &&
      (forall s :: s in lines && s !in packetSubscribers ==> s in ready && s.line == Joined(lines[s], s.window)) &&
      forall k :: 0 <= k < i ==> packetSubscribers[k] !in ready
    }

    /** Move every subscriber that can follow the shared batches to them. What is pending belongs to those who are
      * batched already, so it goes out before the first one joins them. */
    method PromoteReady(m: Means)
      requires Valid()
      modifies this`batch, this`packetSubscribers, this`batchClients
      modifies subscribers`missed, subscribers`out, subscribers`failed, packetSubscribers`batched,
        packetSubscribers`line
      ensures Valid()
      ensures forall s :: s in old(packetSubscribers) ==> (s !in packetSubscribers <==> old(Ready(s)))
      ensures forall s :: s in packetSubscribers ==> s in old(packetSubscribers)
      ensures forall s :: s in old(packetSubscribers) ==> Ready(s) == old(Ready(s))
      ensures !old(AnyReady()) ==> batch == old(batch)
      ensures forall s :: s in old(packetSubscribers) ==>
        s.line == if old(Ready(s)) then Joined(old(s.line), s.window) else old(s.line)
      ensures forall s :: s in subscribers ==>
        Spared(s, old(s.batched), old(s.out), old(s.missed), old(s.failed), old(Able(s, m)), old(Viewed(s, m)))
    {
      hide Valid, Ready, Able, Joined, Sorted, Spared, AnyReady;
      var i := FirstReady();
      PacketAreSubscribers();
      if i == |packetSubscribers| {
        NothingHappened(m);
      } else {
        Settle(m);
        PromoteSettled(i);
      }
    }

    /** With nothing pending, move those who are ready; `i` is the first of them. */
    method PromoteSettled(i: nat)
      requires Valid() && batch == None && i <= |packetSubscribers| &&
        forall k :: 0 <= k < i ==> !Ready(packetSubscribers[k])
      modifies this`packetSubscribers, this`batchClients, packetSubscribers`batched, packetSubscribers`line
      ensures Valid()
      ensures forall s :: s in old(packetSubscribers) ==> (s !in packetSubscribers <==> old(Ready(s)))
      ensures forall s :: s in packetSubscribers ==> s in old(packetSubscribers)
      ensures forall s :: s in old(packetSubscribers) ==>
        s.line == if old(Ready(s)) then Joined(old(s.line), s.window) else old(s.line)
    {
      hide Valid, Ready, Joined, Sorted;
      ghost var ready := set s | s in packetSubscribers && Ready(s);
      ghost var lines := map s | s in packetSubscribers :: s.line;
      SortedStart(i, ready, lines);
      PromoteFrom(i, ready, lines);
      SortedEnd(ready, lines);
    }

    lemma NothingHappened(m: Means)
      ensures forall s :: s in subscribers ==> Spared(s, s.batched, s.out, s.missed, s.failed, Able(s, m), Viewed(s, m))
    {
    }

    lemma SortedStart(i: nat, ready: set<Session>, lines: map<Session, Line>)
      requires Valid() && i <= |packetSubscribers| && forall k :: 0 <= k < i ==> !Ready(packetSubscribers[k])
      requires ready == set s | s in packetSubscribers && Ready(s)
      requires lines == map s | s in packetSubscribers :: s.line
      ensures Sorted(i, ready, lines)
    {
      hide Ready;
      PacketAreSubscribers();
    }

    lemma SortedEnd(ready: set<Session>, lines: map<Session, Line>)
      requires Sorted(|packetSubscribers|, ready, lines)
      ensures forall s :: s in lines ==> (s !in packetSubscribers <==> s in ready)
      ensures forall s :: s in lines ==> s.line == if s in ready then Joined(lines[s], s.window) else lines[s]
    {
      hide Ready, Joined;
    }

    method FirstReady() returns (i: nat)
      ensures i <= |packetSubscribers| && (forall k :: 0 <= k < i ==> !Ready(packetSubscribers[k]))
      ensures i < |packetSubscribers| ==> Ready(packetSubscribers[i])
      ensures i < |packetSubscribers| <==> AnyReady()
    {
      hide Ready;
      i := 0;
      while i < |packetSubscribers| && !Ready(packetSubscribers[i])
        invariant i <= |packetSubscribers| && forall k :: 0 <= k < i ==> !Ready(packetSubscribers[k])
      {
        i := i + 1;
      }
    }

    method PromoteFrom(start: nat, ghost ready: set<Session>, ghost lines: map<Session, Line>)
      requires Valid() && batch == None && Sorted(start, ready, lines)
      modifies this`packetSubscribers, this`batchClients, packetSubscribers`batched, packetSubscribers`line
      ensures Valid() && Sorted(|packetSubscribers|, ready, lines)
      ensures forall s :: s in packetSubscribers ==> s in old(packetSubscribers)
    {
      var i: nat := start;
      hide Valid, Ready, Joined, Sorted;
      SortedAt(i, ready, lines);
      while i < |packetSubscribers|
        invariant Valid() && batch == None && i <= |packetSubscribers| && Sorted(i, ready, lines)
        invariant forall s :: s in packetSubscribers ==> s in old(packetSubscribers)
        decreases |packetSubscribers| - i
      {
        var s := packetSubscribers[i];
        assert s in packetSubscribers;
        SortedAt(i, ready, lines);
        if Ready(s) {
          PromoteNext(s, i, ready, lines);
        } else {
          i := i + 1;
        }
      }
    }

    method PromoteNext(s: Session, i: nat, ghost ready: set<Session>, ghost lines: map<Session, Line>)
      requires Valid() && batch == None && i < |packetSubscribers| && packetSubscribers[i] == s && Ready(s) &&
        Sorted(i, ready, lines)
      modifies this`packetSubscribers, this`batchClients, s`batched, s`line
      ensures Valid() && |packetSubscribers| == |old(packetSubscribers)| - 1 && Sorted(i, ready, lines)
      ensures forall t :: t in packetSubscribers ==> t in old(packetSubscribers)
    {
      hide Valid, Ready, Joined;
      Promote(s, i);
    }

    lemma SortedAt(i: nat, ready: set<Session>, lines: map<Session, Line>)
      requires Sorted(i, ready, lines)
      ensures i <= |packetSubscribers| &&
        (i < |packetSubscribers| && !Ready(packetSubscribers[i]) ==> Sorted(i + 1, ready, lines))
    {
    }

    lemma PacketAreSubscribers()
      requires Valid()
      ensures forall s :: s in packetSubscribers ==> s in subscribers
    {
    }

    /** What can be had for a subscriber. */
    static ghost function ChanceOf(s: Session, m: Means): Chance {
      Chance(m.stops(s), m.windows(s), m.copies(s))
    }

    /** Where a subscriber is when there is no shared output any more. */
    static ghost predicate Landed(s: Session, before: Member, g: Group, m: Means)
      reads s`batched, s`window, s`line, s`failed, s`waiting, s`fecEnabled
    {
      if before.batched then
        before.at.line.since <= |g.log| && s.Stand() == Landing(before, g, ChanceOf(s, m)).(failed := s.failed)
      else s.Stand() == before.(failed := s.failed)
    }

    /** Give every batched subscriber a private window that continues where the shared one stands. */
    method EnablePrivateFec(m: Means)
      requires Valid()
      modifies this`batch, this`sharedOutput, this`packetSubscribers, this`batchClients, this`window, this`orderly
      modifies subscribers`missed, subscribers`out, subscribers`failed, subscribers`batched, subscribers`window,
        subscribers`line
      ensures Valid() && ValidSize(old(window).size) &&
        AsGroup() == old(AsGroup()).(w := New(old(window).size), orderly := true, shared := false)
      ensures batchClients == 0 && batch == None
      ensures forall s :: s in subscribers ==>
        s in packetSubscribers && Landed(s, old(s.Stand()), old(AsGroup()), m)
      ensures forall s :: s in subscribers && (old(Able(s, m)) || !old(s.batched)) ==> s.missed == old(s.missed)
      ensures forall s :: s in subscribers && (old(Viewed(s, m)) || !old(s.batched)) ==>
        s.failed == (old(s.failed) || (old(s.batched) && !(m.windows(s) && m.copies(s))))
      ensures forall s :: s in subscribers && old(s.batched) && !(m.windows(s) && m.copies(s)) ==> s.failed
    {
      hide Valid, Landed, Able, Picks, Session.Private;
      Settle(m);
      sharedOutput := false;
      label settled:
      Separate(m);
      forall s | s in subscribers ensures Landed(s, old(s.Stand()), old(AsGroup()), m) {
        StillLanded(s, old@settled(s.Stand()), old(s.Stand()), old(AsGroup()), m);
      }
    }

    /** A subscriber that failed on the way lands in the same place. */
    static lemma StillLanded(s: Session, before: Member, first: Member, g: Group, m: Means)
      requires Landed(s, before, g.(shared := false), m) && first == before.(failed := first.failed)
      ensures Landed(s, first, g, m)
    {
      hide Story;
    }

    /** With nothing pending, end the shared output. */
    method Separate(m: Means)
      requires Valid() && batch == None
      modifies this`packetSubscribers, this`batchClients, this`window, this`orderly
      modifies subscribers`failed, subscribers`batched, subscribers`window, subscribers`line
      ensures Valid() && batchClients == 0 && window == New(old(window).size) && orderly && ValidSize(old(window).size)
      ensures forall s :: s in subscribers ==> s in packetSubscribers && Landed(s, old(s.Stand()), old(AsGroup()), m)
      ensures forall s :: s in subscribers ==>
        s.failed == (old(s.failed) || (old(s.batched) && !(m.windows(s) && m.copies(s))))
    {
      hide Valid, Landed, Mine, Picks, Flags, Session.Private, Session.Stand;
      Cut();
      MakeAllPrivate(m);
      Dissolve();
    }

    /** What the shared output leaves behind once nothing is pending. */
    lemma Cut()
      requires Valid() && batch == None
      ensures Picks(subscribers, packetSubscribers) && Flags(subscribers, packetSubscribers) && Mine()
      ensures refs == |subscribers| && ValidSize(window.size)
      ensures forall s :: s in subscribers ==> Leaves(s)
    {
      hide Picks, Flags, UpToDate, InLine, Sound, Session.Private;
    }

    /** What is known of a subscriber before it leaves the shared output. */
    ghost predicate Leaves(s: Session)
      reads this`window, this`orderly, this`log, this`lost, s`batched, s`line, s`out, s`missed, s`window
    {
      ValidSize(window.size) && (orderly ==> Sound(window)) &&
      if s.batched then
        s.line.since <= |log| && (!s.missed ==> UpToDate(s.line, s.out, log, [])) &&
        (s.line.clean && orderly ==> InLine(s.line, log, window, lost))
      else s.Private()
    }

    method MakeAllPrivate(m: Means)
      requires Picks(subscribers, packetSubscribers) && Flags(subscribers, packetSubscribers) &&
        forall s :: s in subscribers ==> Leaves(s)
      modifies this`packetSubscribers, subscribers`failed, subscribers`batched, subscribers`window, subscribers`line
      ensures Picks(subscribers, packetSubscribers)
      ensures forall s :: s in subscribers ==> s in packetSubscribers && !s.batched && s.Private()
      ensures forall s :: s in subscribers ==> Landed(s, old(s.Stand()), old(AsGroup()), m)
      ensures forall s :: s in subscribers ==>
        s.failed == (old(s.failed) || (old(s.batched) && !(m.windows(s) && m.copies(s))))
    {
      hide Leaves, Landed, Picks, Session.Private;
      PickedAre(subscribers, packetSubscribers);
      for i := 0 to |subscribers|
        invariant Picks(subscribers, packetSubscribers) && Distinct(subscribers)
        invariant forall k :: 0 <= k < i ==>
          !subscribers[k].batched && subscribers[k] in packetSubscribers && subscribers[k].Private()
        invariant forall k :: 0 <= k < i ==> var s := subscribers[k];
          Landed(s, old(s.Stand()), old(AsGroup()), m)
        invariant forall k :: 0 <= k < i ==> var s := subscribers[k];
          s.failed == (old(s.failed) || (old(s.batched) && !(m.windows(s) && m.copies(s))))
        invariant forall k :: i <= k < |subscribers| ==> var s := subscribers[k];
          unchanged(s) && Leaves(s) && (s.batched <==> s !in packetSubscribers)
      {
        MoveOne(subscribers[i], m);
      }
    }

    /** A subscriber that is batched gets a window of its own and single packets from here on. */
    method MoveOne(s: Session, m: Means)
      requires Leaves(s) && Picks(subscribers, packetSubscribers) && s in subscribers &&
        (s.batched <==> s !in packetSubscribers)
      modifies this`packetSubscribers, s`failed, s`batched, s`window, s`line
      ensures Picks(subscribers, packetSubscribers) &&
        forall t :: t in packetSubscribers <==> t == s || t in old(packetSubscribers)
      ensures !s.batched && s.Private() && Landed(s, old(s.Stand()), old(AsGroup()), m)
      ensures s.failed == (old(s.failed) || (old(s.batched) && !(m.windows(s) && m.copies(s))))
    {
      hide Leaves, Landed, Picks, Session.Private;
      if s.batched {
        PicksMore(subscribers, packetSubscribers, s);
        MakePrivate(s, m);
        packetSubscribers := [s] + packetSubscribers;
      } else {
        StaysPrivate(s, m);
      }
    }

    lemma StaysPrivate(s: Session, m: Means)
      requires Leaves(s) && !s.batched
      ensures s.Private() && Landed(s, s.Stand(), AsGroup(), m)
    {
    }

    /** The subscriber's own window starts as a copy of the shared one. */
    method MakePrivate(s: Session, m: Means)
      requires s.batched && Leaves(s)
      modifies s`failed, s`batched, s`window, s`line
      ensures !s.batched && s.Private() && Landed(s, old(s.Stand()), old(AsGroup()), m)
      ensures s.failed == (old(s.failed) || (old(s.batched) && !(m.windows(s) && m.copies(s))))
    {
      hide Payloads, Accounted, Sound, Story;
      s.line := Landing(s.Stand(), AsGroup(), ChanceOf(s, m)).at.line;
      assert s.out + [] == s.out;
      if m.windows(s) {
        s.window := window;
        if !m.copies(s) {
          s.failed := true;
        }
      } else {
        s.window := New(32);
        s.failed := true;
      }
      s.batched := false;
    }

    /** Nobody is batched any more. */
    method Dissolve()
      requires Picks(subscribers, packetSubscribers) && Mine() && refs == |subscribers| && batch == None &&
        ValidSize(window.size)
      requires forall s :: s in subscribers ==> s in packetSubscribers && !s.batched && s.Private()
      modifies this`batchClients, this`window, this`orderly
      ensures Valid() && batchClients == 0 && window == New(old(window).size) && orderly
    {
      hide Session.Private;
      AllPicked(subscribers, packetSubscribers);
      batchClients := 0;
      window := New(window.size);
      orderly := true;
    }

    // ----- what arrives -----

    /** Every view of a packet that a subscriber needs can be had. */
    static ghost predicate Attended(s: Session, m: Means) {
      forall n :: m.views(s, n)
    }

    /** A subscriber's own window and the shared one are less than half the number space apart. */
    ghost predicate Near(s: Session)
      reads this`window, s`window
    {
      -32768 < s.window.base - window.base < 32768
    }

    /** Nothing can be missed for want of an unmodelled form: parity is not in use, or no media packet is due. */
    ghost predicate Calm(s: Session, p: Packet)
      reads s`waiting, s`batched
    {
      if p.Parity? then s.waiting == [] else s.batched
    }

    /** A subscriber and a source that fit each other. */
    lemma AllFit()
      requires Valid()
      ensures forall s :: s in subscribers ==> Fits(s.Stand(), AsGroup())
    {
      hide UpToDate, InLine, Sound, Picks, Accounted;
    }

    /** A packet of the group arrives. Subscribers of single packets get it first; then it goes to the shared output,
      * and those who have caught up join that. The first parity packet ends the shared output. */
    method ProcessPacket(p: Packet, m: Means)
      requires Valid()
      modifies this`batch, this`log, this`window, this`lost, this`orderly, this`packetType, this`sharedOutput,
        this`packetSubscribers, this`batchClients
      modifies subscribers`missed, subscribers`out, subscribers`failed, subscribers`batched, subscribers`window,
        subscribers`line
      modifies subscribers`fecEnabled, subscribers`waiting
      ensures Valid() && ValidSize(old(window).size) && AsGroup() == GroupNext(old(AsGroup()), p)
      ensures forall s :: s in subscribers ==> Fits(old(s.Stand()), old(AsGroup()))
      ensures forall s :: s in subscribers && Attended(s, m) ==>
        s.Stand() == MemberNext(old(s.Stand()), s.Self(), old(AsGroup()), p, ChanceOf(s, m))
      ensures forall s ::
        s in subscribers && s.Willing(m.accepts) && (old(s.batched) ==> old(Able(s, m))) &&
        (!s.fecEnabled || old(Calm(s, p))) ==>
        s.missed == old(s.missed)
      ensures !(old(sharedOutput) && p.Parity?) ==> forall s :: s in old(packetSubscribers) ==>
        Fits(old(s.Stand()), old(AsGroup())) && Went(s, old(s.Stand()), p, old(Seen(s, m)), old(s.missed), m) &&
        (s.batched <==> sharedOutput && Shares(p) && Ready(s))
      ensures old(sharedOutput) && p.Media? ==> forall s :: s in old(packetSubscribers) && s.batched && Near(s) ==>
        Follows(s.window, window) &&
        s.line.clean == Reception(old(s.Stand()), s.Self(), p, old(Seen(s, m)), m.stops(s)).at.line.clean
      ensures !(old(sharedOutput) && p.Parity?) ==> forall s :: s in subscribers && old(s.batched) ==>
        s.batched && s.line == old(s.line) &&
        Spared(s, true, old(s.out), old(s.missed), old(s.failed), old(Able(s, m)), old(Viewed(s, m)))
    {
      hide Valid, Ready, Able, Went, Handled, Tame, Fits, GroupNext, MemberNext, Session.Willing, Follows, Near;
      AllFit();
      PacketKinds(p);
      if sharedOutput && p.Parity? {
        EndShared(p, m);
      } else {
        Spread(p, m);
        forall s | s in subscribers && !old(s.batched)
          ensures Attended(s, m) ==>
            s.Stand() == MemberNext(old(s.Stand()), s.Self(), old(AsGroup()), p, ChanceOf(s, m))
          ensures s.Willing(m.accepts) && (!s.fecEnabled || old(Calm(s, p))) ==> s.missed == old(s.missed)
        {
          TookIsNext(s, old(s.Stand()), old(AsGroup()), p, old(Seen(s, m)), old(s.missed), m);
        }
        forall s | s in old(packetSubscribers) && s.batched && Near(s) && old(sharedOutput) && p.Media?
          ensures Follows(s.window, window) &&
            s.line.clean == Reception(old(s.Stand()), s.Self(), p, old(Seen(s, m)), m.stops(s)).at.line.clean
        {
          KindOf(old(AsGroup()), p);
          ReadyFollows(s, old(s.Stand()), p, old(Seen(s, m)), old(s.missed), m);
        }
        forall s | s in subscribers && old(s.batched) && Attended(s, m)
          ensures s.Stand() == MemberNext(old(s.Stand()), s.Self(), old(AsGroup()), p, ChanceOf(s, m))
        {
          StaysBatched(s.Stand(), s.Self(), old(AsGroup()), p, ChanceOf(s, m));
        }
      }
    }

    static lemma KindOf(g: Group, p: Packet)
      requires ValidSize(g.w.size) && g.shared && p.Media?
      ensures GroupNext(g, p).packetType == 1
    {
    }

    /** Who joins at a numbered packet stands at the same number, and stays accounted for. */
    lemma ReadyFollows(s: Session, before: Member, p: Packet, view: bool, missed: bool, m: Means)
      requires Ready(s) && packetType == 1 && Near(s) && ValidSize(before.at.w.size) &&
        Went(s, before, p, view, missed, m) && s.batched
      ensures Follows(s.window, window) &&
        s.line.clean == Reception(before, s.Self(), p, view, m.stops(s)).at.line.clean
    {
      hide Reception;
      Handoff.SameNumber(s.window.base, window.base);
    }

    static lemma StaysBatched(mb: Member, who: Who, g: Group, p: Packet, c: Chance)
      requires Fits(mb, g) && mb.batched && !(g.shared && p.Parity?)
      ensures MemberNext(mb, who, g, p, c) == mb
    {
    }

    /** A subscriber of single packets took the packet in; if it has caught up, it follows the shared output from
      * there. */
    ghost predicate Went(s: Session, before: Member, p: Packet, view: bool, missed: bool, m: Means)
      requires ValidSize(before.at.w.size)
      reads this`window, this`log, this`lost, this`orderly, this`sharedOutput, this`packetType
      reads s`batched, s`window, s`line, s`failed, s`waiting, s`fecEnabled, s`missed, s`fcc, s`closing
    {
      var next := Reception(before, s.Self(), p, view, m.stops(s));
      s.Stand() == (if s.batched then Joins(next) else next) &&
      (s.Willing(m.accepts) && (!s.fecEnabled || (p.Parity? && before.waiting == [])) ==> s.missed == missed)
    }

    lemma WentOn(s: Session, taken: Member, before: Member, p: Packet, view: bool, missed: bool, m: Means)
      requires ValidSize(before.at.w.size) && taken == Reception(before, s.Self(), p, view, m.stops(s))
      requires s.Willing(m.accepts) && (!s.fecEnabled || (p.Parity? && before.waiting == [])) ==> s.missed == missed
      requires s.Stand() == if s.batched then Joins(taken) else taken
      ensures Went(s, before, p, view, missed, m)
    {
      hide Reception;
    }

    /** A subscriber of single packets is where its own reception, and joining if it may, lead it. */
    lemma TookIsNext(s: Session, before: Member, g: Group, p: Packet, view: bool, missed: bool, m: Means)
      requires Fits(before, g) && !before.batched && AsGroup() == GroupNext(g, p) && !(g.shared && p.Parity?)
      requires ValidSize(before.at.w.size) && Went(s, before, p, view, missed, m) &&
        (s.batched <==> sharedOutput && Shares(p) && Ready(s))
      ensures view ==> s.Stand() == MemberNext(before, s.Self(), g, p, ChanceOf(s, m))
      ensures s.Willing(m.accepts) && (!s.fecEnabled || (p.Parity? && before.waiting == [])) ==> s.missed == missed
    {
      hide Session.Willing, GroupNext, Handled, Tame, Reception;
      assert sharedOutput == g.shared by { GroupShared(g, p); }
    }

    static lemma GroupShared(g: Group, p: Packet)
      requires ValidSize(g.w.size) && !(g.shared && p.Parity?)
      ensures GroupNext(g, p).shared == g.shared
    {
    }

    /** Without parity, subscribers of single packets take the packet in, and who has caught up joins the others. */
    method Spread(p: Packet, m: Means)
      requires Valid() && !(sharedOutput && p.Parity?)
      modifies this`batch, this`log, this`window, this`lost, this`orderly, this`packetType, this`packetSubscribers,
        this`batchClients
      modifies subscribers`missed, subscribers`out, subscribers`failed, packetSubscribers`batched,
        packetSubscribers`window, subscribers`line
      modifies packetSubscribers`fecEnabled, packetSubscribers`waiting
      ensures Valid() && ValidSize(old(window).size) && AsGroup() == GroupNext(old(AsGroup()), p)
      ensures forall s :: s in old(packetSubscribers) ==>
        ValidSize(old(s.window).size) && (s.batched <==> sharedOutput && Shares(p) && Ready(s))
      ensures forall s :: s in old(packetSubscribers) ==> Went(s, old(s.Stand()), p, old(Seen(s, m)), old(s.missed), m)
      ensures forall s :: s in subscribers && s !in old(packetSubscribers) ==>
        s.line == old(s.line) &&
        Spared(s, true, old(s.out), old(s.missed), old(s.failed), old(Able(s, m)), old(Viewed(s, m)))
    {
      hide Valid, Ready, Able, Handled, Tame, Seen, Spared, Session.Willing, Joins, Reception, Went, GroupNext, AsGroup;
      PacketKinds(p);
      DeliverAll(p, m);
      PacketKinds(p);
      label taken:
      PassOn(p, m);
      forall s | s in old(packetSubscribers) ensures Went(s, old(s.Stand()), p, old(Seen(s, m)), old(s.missed), m) {
        WentOn(s, old@taken(s.Stand()), old(s.Stand()), p, old(Seen(s, m)), old(s.missed), m);
      }
    }

    /** What every subscriber of single packets has seen goes to the shared output, unless it does not belong there. */
    method PassOn(p: Packet, m: Means)
      requires Valid() && !(sharedOutput && p.Parity?)
      modifies this`batch, this`log, this`window, this`lost, this`orderly, this`packetType, this`packetSubscribers,
        this`batchClients
      modifies subscribers`missed, subscribers`out, subscribers`failed, packetSubscribers`batched,
        packetSubscribers`line
      ensures Valid() && ValidSize(old(window).size) && AsGroup() == GroupNext(old(AsGroup()), p)
      ensures forall s :: s in old(packetSubscribers) ==> (s.batched <==> sharedOutput && Shares(p) && Ready(s))
      ensures forall s :: s in old(packetSubscribers) ==>
        s.Stand() == (if s.batched then Joins(old(s.Stand())) else old(s.Stand())) && s.missed == old(s.missed)
      ensures forall s :: s in subscribers && s !in old(packetSubscribers) ==>
        s.line == old(s.line) &&
        Spared(s, true, old(s.out), old(s.missed), old(s.failed), old(Able(s, m)), old(Viewed(s, m)))
    {
      hide Valid, Ready, Able, Handled, Tame, Spared, Joins, Viewed;
      PacketKinds(p);
      NothingHappened(m);
      if sharedOutput && Shares(p) {
        packetType := if p.Media? then 1 else 0;
        ShareOut(p, m);
      }
    }

    lemma PacketKinds(p: Packet)
      requires Valid()
      ensures ValidSize(window.size) && (!Shares(p) ==> Handled(window, p) == Effect(window, [], 0) && Tame(window, p))
      ensures log + [] == log && lost + 0 == lost
      ensures forall i :: 0 <= i < |packetSubscribers| ==> packetSubscribers[i] in subscribers
      ensures forall s :: s in packetSubscribers ==> !s.batched && ValidSize(s.window.size)
      ensures forall s :: s in subscribers && s !in packetSubscribers ==> s.batched
    {
      PacketOnly();
    }

    /** The first parity packet ends the shared output; then everybody gets it singly. */
    method EndShared(p: Packet, m: Means)
      requires Valid() && sharedOutput && p.Parity?
      requires forall s :: s in subscribers ==> Fits(s.Stand(), AsGroup())
      modifies this`batch, this`window, this`orderly, this`sharedOutput, this`packetSubscribers, this`batchClients
      modifies subscribers`missed, subscribers`out, subscribers`failed, subscribers`batched, subscribers`window,
        subscribers`line
      modifies subscribers`fecEnabled, subscribers`waiting
      ensures Valid() && ValidSize(old(window).size) && AsGroup() == GroupNext(old(AsGroup()), p)
      ensures forall s :: s in subscribers ==> !s.batched && Fits(old(s.Stand()), old(AsGroup()))
      ensures forall s :: s in subscribers && Attended(s, m) ==>
        s.Stand() == MemberNext(old(s.Stand()), s.Self(), old(AsGroup()), p, ChanceOf(s, m))
      ensures forall s ::
        s in subscribers && s.Willing(m.accepts) && (old(s.batched) ==> old(Able(s, m))) &&
        (!s.fecEnabled || old(Calm(s, p))) ==>
        s.missed == old(s.missed)
    {
      hide Valid, Landed, Able, Picks, Fits, Session.Willing, Handled, Tame, Reception, Landing;
      EnablePrivateFec(m);
      label landed:
      PacketKinds(p);
      forall s | s in subscribers && Attended(s, m)
        ensures s.Stand() == Set(old(s.Stand()), old(AsGroup()), ChanceOf(s, m))
      {
        LandedIs(s, old(s.Stand()), old(AsGroup()), m);
      }
      DeliverAll(p, m);
      forall s | s in subscribers
        ensures !s.batched
      {
      }
    }

    /** Where a subscriber is after the shared output has ended, if it can have every view. */
    static ghost function Set(before: Member, g: Group, c: Chance): Member
      requires Fits(before, g)
    {
      if before.batched then Landing(before, g, c) else before
    }

    lemma LandedIs(s: Session, before: Member, g: Group, m: Means)
      requires Fits(before, g) && Landed(s, before, g, m)
      requires s.failed == (before.failed || (before.batched && !(m.windows(s) && m.copies(s))))
      ensures s.Stand() == Set(before, g, ChanceOf(s, m))
    {
      hide Story;
    }

    /** A packet goes to the shared output, and those who have caught up join that. */
    method ShareOut(p: Packet, m: Means)
      requires Valid()
      modifies this`batch, this`log, this`window, this`lost, this`orderly, this`packetSubscribers, this`batchClients
      modifies subscribers`missed, subscribers`out, subscribers`failed, packetSubscribers`batched,
        packetSubscribers`line
      ensures Valid() && ValidSize(old(window).size) && window == Handled(old(window), p).w &&
        log == old(log) + Handled(old(window), p).items
      ensures lost == old(lost) + Handled(old(window), p).lost && orderly == (old(orderly) && Tame(old(window), p))
      ensures forall s :: s in old(packetSubscribers) ==>
        (s in packetSubscribers <==> !Ready(s)) && (s.batched <==> Ready(s))
      ensures forall s :: s in old(packetSubscribers) ==>
        s.Stand() == (if s.batched then Joins(old(s.Stand())) else old(s.Stand())) && s.missed == old(s.missed)
      ensures forall s :: s in subscribers ==>
        Spared(s, old(s.batched), old(s.out), old(s.missed), old(s.failed), old(Able(s, m)), old(Viewed(s, m)))
    {
      hide Valid, Ready, Able, Handled, Tame, Joined, AnyReady;
      PacketKinds(p);
      Share(p, m);
      if packetSubscribers != [] {
        PromoteReady(m);
        PacketKinds(p);
      }
    }

    /** Packets arrive one after the other. The source does what they do to its window, and everything that comes out of
      * it is appended; every subscriber that can have the views it needs goes where they lead it, and misses nothing
      * its queue takes. */
    method ReceiveAll(packets: seq<Packet>, means: nat -> Means)
      requires Valid()
      modifies this`batch, this`log, this`window, this`lost, this`orderly, this`packetType, this`sharedOutput,
        this`packetSubscribers, this`batchClients
      modifies subscribers`missed, subscribers`out, subscribers`failed, subscribers`batched, subscribers`window,
        subscribers`line
      modifies subscribers`fecEnabled, subscribers`waiting
      ensures Valid() && ValidSize(old(window).size) && AsGroup() == GroupRun(old(AsGroup()), packets)
      ensures old(log) <= log && sharedOutput == (old(sharedOutput) && NoParity(packets))
      ensures forall s :: s in subscribers ==> Fits(old(s.Stand()), old(AsGroup()))
      ensures forall s :: s in subscribers && AlwaysAttended(s, means) ==>
        s.Stand() == MemberRun(old(s.Stand()), s.Self(), old(AsGroup()), packets, Chances(s, means))
      ensures forall s :: s in subscribers && Eager(s, means) && old(s.batched ==> !s.failed) && !s.fecEnabled ==>
        s.missed == old(s.missed)
      ensures sharedOutput ==> forall s :: s in subscribers && old(s.batched) ==>
        s.batched && s.line == old(s.line) &&
        (old(AbleFor(s, means)) ==> s.missed == old(s.missed) && s.failed == old(s.failed))
    {
      hide Valid, AbleFor, Eager, GroupRun, MemberRun, Ran, Fits, NoParity, Session.Stand, Session.Self, AsGroup,
        Chances, AlwaysAttended;
      AllFit();
      Facts();
      ghost var start := AsGroup();
      ghost var stands: map<Session, Member> := map s: Session | s in subscribers :: s.Stand();
      forall s | s in subscribers ensures Ran(s, stands[s], start, [], means) {
        RanNothing(s, means);
      }
      ReceiveEach(packets, means, start, stands);
      forall s | s in subscribers
        ensures AlwaysAttended(s, means) ==>
          s.Stand() == MemberRun(stands[s], s.Self(), start, packets, Chances(s, means))
      {
        RanMeans(s, stands[s], start, packets, means);
      }
    }

    method ReceiveEach(packets: seq<Packet>, means: nat -> Means, ghost start: Group,
      ghost stands: map<Session, Member>)
      requires Valid() && ValidSize(start.w.size) && AsGroup() == GroupRun(start, [])
      requires forall s :: s in subscribers ==> s in stands && Ran(s, stands[s], start, [], means)
      modifies this`batch, this`log, this`window, this`lost, this`orderly, this`packetType, this`sharedOutput,
        this`packetSubscribers, this`batchClients
      modifies subscribers`missed, subscribers`out, subscribers`failed, subscribers`batched, subscribers`window,
        subscribers`line
      modifies subscribers`fecEnabled, subscribers`waiting
      ensures Valid() && AsGroup() == GroupRun(start, packets) && old(log) <= log
      ensures sharedOutput == (old(sharedOutput) && NoParity(packets))
      ensures forall s :: s in subscribers ==> Ran(s, stands[s], start, packets, means)
      ensures forall s :: s in subscribers && Eager(s, means) && old(s.batched ==> !s.failed) && !s.fecEnabled ==>
        s.missed == old(s.missed)
      ensures sharedOutput ==> forall s :: s in subscribers && old(s.batched) ==>
        s.batched && s.line == old(s.line) &&
        (old(AbleFor(s, means)) ==> s.missed == old(s.missed) && s.failed == old(s.failed))
    {
      hide Valid, AbleFor, Eager, GroupRun, Ran, Fits, NoParity, AsGroup;
      Nothing();
      assert packets[..0] == [];
      for i := 0 to |packets|
        invariant Valid() && AsGroup() == GroupRun(start, packets[..i]) && old(log) <= log
        invariant sharedOutput == (old(sharedOutput) && NoParity(packets[..i]))
        invariant forall s :: s in subscribers ==> Ran(s, stands[s], start, packets[..i], means)
        invariant forall s :: s in subscribers && Eager(s, means) && old(s.batched ==> !s.failed) ==>
          (s.batched ==> !s.failed) && (!s.fecEnabled ==> s.missed == old(s.missed))
        invariant sharedOutput ==> forall s :: s in subscribers && old(s.batched) ==>
          s.batched && s.line == old(s.line) &&
          (old(AbleFor(s, means)) ==> s.missed == old(s.missed) && s.failed == old(s.failed))
      {
        ReceiveNext(packets[i], means(i), means, start, stands, packets[..i]);
        OneMoreParity(packets[..i], packets[i]);
        assert packets[..i + 1] == packets[..i] + [packets[i]];
      }
      assert packets[..|packets|] == packets;
    }

    static lemma Nothing()
      ensures NoParity([])
    {
    }

    static lemma RanMeans(s: Session, first: Member, g: Group, ps: seq<Packet>, means: nat -> Means)
      requires Ran(s, first, g, ps, means)
      ensures Fits(first, g) &&
        (AlwaysAttended(s, means) ==> s.Stand() == MemberRun(first, s.Self(), g, ps, Chances(s, means)))
    {
    }

    static lemma OneMoreParity(ps: seq<Packet>, p: Packet)
      ensures NoParity(ps + [p]) == (NoParity(ps) && !p.Parity?)
    {
      assert (ps + [p])[|ps|] == p;
      assert forall i :: 0 <= i < |ps| ==> (ps + [p])[i] == ps[i];
    }

    /** One packet of a run; `ps` have arrived before. */
    method ReceiveNext(p: Packet, m: Means, ghost means: nat -> Means, ghost start: Group,
      ghost stands: map<Session, Member>, ghost ps: seq<Packet>)
      requires m == means(|ps|) && Valid() && ValidSize(start.w.size) && AsGroup() == GroupRun(start, ps)
      requires forall s :: s in subscribers ==> s in stands && Ran(s, stands[s], start, ps, means)
      modifies this`batch, this`log, this`window, this`lost, this`orderly, this`packetType, this`sharedOutput,
        this`packetSubscribers, this`batchClients
      modifies subscribers`missed, subscribers`out, subscribers`failed, subscribers`batched, subscribers`window,
        subscribers`line
      modifies subscribers`fecEnabled, subscribers`waiting
      ensures Valid() && AsGroup() == GroupRun(start, ps + [p]) && old(log) <= log &&
        sharedOutput == (old(sharedOutput) && !p.Parity?)
      ensures forall s :: s in subscribers ==> Ran(s, stands[s], start, ps + [p], means)
      ensures forall s :: s in subscribers && Eager(s, means) && old(s.batched ==> !s.failed) ==>
        (s.batched ==> !s.failed) && (!s.fecEnabled ==> !old(s.fecEnabled) && s.missed == old(s.missed))
      ensures sharedOutput ==> forall s :: s in subscribers && old(s.batched) ==>
        s.batched && s.line == old(s.line) &&
        (old(AbleFor(s, means)) ==> s.missed == old(s.missed) && s.failed == old(s.failed))
    {
      hide Valid, Ready, Able, AbleFor, Eager, Attended, AlwaysAttended, Went, Handled, Tame, GroupNext, GroupRun,
        MemberNext, MemberRun;
      hide Chances, ChanceOf, Ran, Fits, Near, Follows, Calm, Seen, Viewed, NoParity, Session.Willing, AsGroup;
      Facts();
      AbleNow(means, |ps|);
      EagerNow(means, |ps|);
      forall s | s in subscribers
        ensures Fits(stands[s], start)
        ensures AlwaysAttended(s, means) ==> s.Stand() == MemberRun(stands[s], s.Self(), start, ps, Chances(s, means))
      {
        RanMeans(s, stands[s], start, ps, means);
      }
      ProcessPacket(p, m);
      Facts();
      RunOne(start, ps, p);
      forall s | s in subscribers
        ensures Ran(s, stands[s], start, ps + [p], means)
        ensures Eager(s, means) && old(s.batched ==> !s.failed) ==>
          (s.batched ==> !s.failed) && (!s.fecEnabled ==> !old(s.fecEnabled))
      {
        RanOne(s, stands[s], old(s.Stand()), start, ps, p, means);
      }
    }

    lemma Facts()
      requires Valid()
      ensures ValidSize(window.size) && AsGroup().w == window && AsGroup().log == log &&
        AsGroup().shared == sharedOutput
      ensures GroupRun(AsGroup(), []) == AsGroup()
    {
    }

    lemma RanNothing(s: Session, means: nat -> Means)
      requires Fits(s.Stand(), AsGroup())
      ensures Ran(s, s.Stand(), AsGroup(), [], means)
    {
    }

    static lemma RunOne(g: Group, ps: seq<Packet>, p: Packet)
      requires ValidSize(g.w.size)
      ensures var before, after := GroupRun(g, ps), GroupRun(g, ps + [p]);
        after == GroupNext(before, p) && before.log <= after.log && after.shared == (before.shared && !p.Parity?)
    {
      hide Handled, Tame;
      assert (ps + [p])[..|ps|] == ps;
    }

    static lemma RanOne(s: Session, first: Member, before: Member, g: Group, ps: seq<Packet>, p: Packet,
      means: nat -> Means)
      requires Fits(first, g) &&
        (AlwaysAttended(s, means) ==> before == MemberRun(first, s.Self(), g, ps, Chances(s, means)))
      requires Fits(before, GroupRun(g, ps))
      requires Attended(s, means(|ps|)) ==>
        s.Stand() == MemberNext(before, s.Self(), GroupRun(g, ps), p, ChanceOf(s, means(|ps|)))
      ensures Ran(s, first, g, ps + [p], means)
      ensures AlwaysAttended(s, means) ==> (before.batched ==> !before.failed) ==> s.batched ==> !s.failed
      ensures AlwaysAttended(s, means) ==> before.fec ==> s.fecEnabled
    {
      hide GroupNext, MemberNext;
      assert (ps + [p])[..|ps|] == ps;
      NextKeeps(before, s.Self(), GroupRun(g, ps), p, ChanceOf(s, means(|ps|)));
    }

    lemma EagerNow(means: nat -> Means, i: nat)
      ensures forall s :: s in subscribers && Eager(s, means) ==>
        AlwaysAttended(s, means) && s.Willing(means(i).accepts) && (!s.failed ==> Able(s, means(i)))
    {
    }

    /** Every view of every packet that a subscriber needs can be had. */
    static ghost predicate AlwaysAttended(s: Session, means: nat -> Means) {
      forall i :: Attended(s, means(i))
    }

    /** A subscriber can have every view, and its queue takes whatever comes. */
    ghost predicate Eager(s: Session, means: nat -> Means)
      reads s`closing
    {
      AlwaysAttended(s, means) && !s.closing && forall i :: s.Willing(means(i).accepts)
    }

    /** What can be had for a subscriber, packet by packet. */
    static ghost function Chances(s: Session, means: nat -> Means): nat -> Chance {
      (i: nat) => ChanceOf(s, means(i))
    }

    /** A subscriber is where the packets led it. */
    static ghost predicate Ran(s: Session, first: Member, g: Group, ps: seq<Packet>, means: nat -> Means)
      reads s`batched, s`window, s`line, s`failed, s`waiting, s`fecEnabled, s`fcc, s`closing
    {
      Fits(first, g) && (AlwaysAttended(s, means) ==> s.Stand() == MemberRun(first, s.Self(), g, ps, Chances(s, means)))
    }

    /** A subscriber takes whatever comes, every time. */
    ghost predicate AbleFor(s: Session, means: nat -> Means)
      reads this`refs, s`failed, s`closing
    {
      forall i :: Able(s, means(i))
    }

    lemma AbleNow(means: nat -> Means, i: nat)
      ensures forall s :: s in subscribers && AbleFor(s, means) ==> Able(s, means(i))
    {
    }

    /** What a subscriber was handed since its base went out, by itself and then with the others. */
    ghost function Told(s: Session): seq<Item>
      requires s.batched ==> s.line.since <= |log|
      reads this`log, s`batched, s`line
    {
      if s.batched then Story(s.line, log) else s.line.trace
    }

    /** One stream, whatever the subscriber moved through: what it was sent and what is pending for it is its base and
      * the payloads handed over, and these are accounted for against the window it follows. */
    lemma OneStream(s: Session)
      requires Valid() && s in subscribers
      ensures s.batched ==> s.line.since <= |log|
      ensures !s.missed ==> s.out + (if s.batched then Pending() else []) == s.line.base + Payloads(Told(s))
      ensures s.line.clean && (s.batched ==> orderly) ==>
        Accounted(Told(s), if s.batched then window else s.window, s.line.lost + if s.batched then lost else 0)
    {
      hide Sound, Payloads, Accounted;
      assert s.out + [] == s.out;
    }

    /** A subscriber that joins at a boundary of numbered packets stays accounted for, and leaves nothing behind: it
      * must be within half the number space of the shared window, and its counter must not have wrapped around. */
    lemma JoinsCleanly(s: Session)
      requires Valid() && s in packetSubscribers && Ready(s) && packetType != 0 && s.line.clean
      requires -32768 < s.window.base - window.base < 32768 && Drift(s.window) + s.window.size < 65536
      ensures Joined(s.line, s.window).clean && s.window.held == map[] && s.window.base == window.base
    {
      PacketOnly();
      Handoff.LooksEmpty(s.window);
      Handoff.SameNumber(s.window.base, window.base);
    }

    // ----- who follows the source -----

    /** Take a subscriber in: with the shared batches from here on, or with single packets. */
    method Attach(s: Session, batched: bool, m: Means)
      requires Valid() && s !in subscribers && s.source == null && s.Private()
      modifies this`batch, this`subscribers, this`packetSubscribers, this`refs, this`batchClients
      modifies subscribers`missed, subscribers`out, subscribers`failed, s`source, s`batched, s`line, s`missed
      ensures Valid() && batch == None && subscribers == [s] + old(subscribers) && refs == old(refs) + 1
      ensures s.batched == batched && s.line == (if batched then Fresh(s.out) else old(s.line)) &&
        s.missed == (!batched && old(s.missed))
      ensures forall t :: t in old(subscribers) ==>
        Spared(t, old(t.batched), old(t.out), old(t.missed), old(t.failed), old(Able(t, m)), old(Viewed(t, m)))
    {
      hide Valid, Able, Spared, Session.Private;
      Settle(m);
      Enroll(s, batched);
    }

    method Enroll(s: Session, batched: bool)
      requires Valid() && batch == None && s !in subscribers && s.source == null && s.Private()
      modifies this`subscribers, this`packetSubscribers, this`refs, this`batchClients, s`source, s`batched, s`line,
        s`missed
      ensures Valid() && subscribers == [s] + old(subscribers) && refs == old(refs) + 1
      ensures s.batched == batched && s.line == (if batched then Fresh(s.out) else old(s.line)) &&
        s.missed == (!batched && old(s.missed))
    {
      if batched {
        EnrollBatched(s);
      } else {
        EnrollSingle(s);
      }
      refs := refs + 1;
    }

    method EnrollBatched(s: Session)
      requires Valid() && batch == None && s !in subscribers
      modifies this`subscribers, this`batchClients, s`source, s`batched, s`line, s`missed
      ensures Picks(subscribers, packetSubscribers) && Flagged() && Mine() && Delivered(Pending()) && Alone() &&
        InOrder()
      ensures batchClients == old(batchClients) + 1 && subscribers == [s] + old(subscribers) && s.batched &&
        s.line == Fresh(s.out) && !s.missed
    {
      hide UpToDate, InLine, Sound, Session.Private, Distinct, Story, Payloads, Accounted;
      StartsInLine(s.out);
      PicksAmong(subscribers, packetSubscribers, s);
      s.source := this;
      s.batched := true;
      s.line := Fresh(s.out);
      s.missed := false;
      subscribers := [s] + subscribers;
      batchClients := batchClients + 1;
    }

    method EnrollSingle(s: Session)
      requires Valid() && batch == None && s !in subscribers && s.Private()
      modifies this`subscribers, this`packetSubscribers, s`source, s`batched
      ensures Picks(subscribers, packetSubscribers) && Flagged() && Mine() && Delivered(Pending()) && Alone() &&
        InOrder()
      ensures packetSubscribers == [s] + old(packetSubscribers) && subscribers == [s] + old(subscribers) && !s.batched
    {
      PicksAmong(subscribers, packetSubscribers, s);
      PicksMore([s] + subscribers, packetSubscribers, s);
      hide UpToDate, InLine, Sound, Session.Private, Distinct;
      s.source := this;
      s.batched := false;
      subscribers := [s] + subscribers;
      packetSubscribers := [s] + packetSubscribers;
    }

    /** The line of a subscriber that comes in here. */
    ghost function Fresh(out: seq<Byte>): Line
      reads this`log, this`lost
    {
      Line(out, [], |log|, 0 - lost as int, true)
    }

    lemma StartsInLine(out: seq<Byte>)
      ensures UpToDate(Fresh(out), out, log, []) && InLine(Fresh(out), log, window, lost)
    {
      assert Story(Fresh(out), log) == [];
      assert out + [] == out + Payloads([]);
      NothingYet(window);
    }

    /** Let a subscriber go. */
    method Detach(s: Session)
      requires Valid() && s in subscribers
      modifies this`subscribers, this`packetSubscribers, this`refs, this`batchClients, s`source, s`batched
      ensures Valid() && s.source == null && !s.batched && refs == old(refs) - 1
      ensures s !in subscribers && forall t :: t in subscribers <==> t in old(subscribers) && t != s
    {
      hide UpToDate, InLine, Sound, Session.Private, Lines, Flags, Orders, Privates, Picks, Distinct;
      Membership(s);
      var batched := s.batched;
      var rest := Unlink(subscribers, s);
      var packet := Unlink(packetSubscribers, s);
      Shorten(s, rest, packet);
      batchClients, refs := if batched then batchClients - 1 else batchClients, refs - 1;
    }

    lemma Membership(s: Session)
      requires Counted() && Flagged() && s in subscribers
      ensures Distinct(subscribers) && Distinct(packetSubscribers) && (s.batched <==> s !in packetSubscribers)
      ensures s.batched ==> batchClients > 0
    {
      BatchedCount(subscribers, packetSubscribers);
      var batched := set t | t in subscribers && t.batched;
      assert s.batched ==> s in batched;
    }

    /** Install the lists without a subscriber. */
    method Shorten(s: Session, rest: seq<Session>, packet: seq<Session>)
      requires Picks(subscribers, packetSubscribers) && Flagged() && Mine() && Delivered(Pending()) && Alone() &&
        InOrder() && s in subscribers
      requires Distinct(rest) && Distinct(packet) && s !in packet
      requires forall t :: t in rest <==> t in subscribers && t != s
      requires forall t :: t in packet <==> t in packetSubscribers && t != s
      modifies this`subscribers, this`packetSubscribers, s`source, s`batched
      ensures Picks(subscribers, packetSubscribers) && Flagged() && Mine() && Delivered(Pending()) && Alone() &&
        InOrder()
      ensures subscribers == rest && packetSubscribers == packet && s.source == null && !s.batched
    {
      hide UpToDate, InLine, Sound, Session.Private;
      subscribers := rest;
      packetSubscribers := packet;
      s.source := null;
      s.batched := false;
    }
  }

  class Registry {
    var sources: seq<Source>

    constructor ()
      ensures Valid() && sources == []
    {
      sources := [];
    }

    /** Sources that work have distinct keys. */
    ghost predicate Keys()
      reads this`sources, sources`failed
    {
      Distinct(sources) &&
      forall i, j :: 0 <= i < j < |sources| && !sources[i].failed && !sources[j].failed ==>
        sources[i].key != sources[j].key
    }

    /** A source is kept only as long as somebody follows it. */
    ghost predicate Used()
      reads this`sources, sources`refs
    {
      forall s :: s in sources ==> s.refs > 0
    }

    ghost predicate AllValid()
      reads this`sources, sources, Everyone()
    {
      forall src :: src in sources ==>
        (Among(src); src.Valid())
    }

    lemma Among(src: Source)
      requires src in sources
      ensures forall i :: 0 <= i < |src.subscribers| ==> src.subscribers[i] in Everyone()
    {
      forall i | 0 <= i < |src.subscribers| ensures src.subscribers[i] in Everyone() {
        var t := src.subscribers[i];
        assert t in src.subscribers;
      }
    }

    ghost predicate Valid()
      reads this`sources, sources, Everyone()
    {
      Keys() && Used() && AllValid()
    }

    ghost function Everyone(): set<Session>
      reads this`sources, sources`subscribers
    {
      set src, t | src in sources && t in src.subscribers :: t
    }

    /** Nobody follows two sources. */
    lemma Apart(source: Source)
      requires AllValid() && source in sources
      ensures source.Valid() && forall t :: t in source.subscribers ==> t.source == source
      ensures forall src, i :: src in sources && src != source && 0 <= i < |src.subscribers| ==>
        src.subscribers[i] !in source.subscribers
    {
      forall t | t in source.subscribers ensures t.source == source {
        Follower(source, t);
      }
      forall src, i | src in sources && src != source && 0 <= i < |src.subscribers|
        ensures src.subscribers[i] !in source.subscribers {
        Follower(src, src.subscribers[i]);
      }
    }

    /** Whoever follows a source is known to it. */
    lemma Placed(t: Session)
      requires Valid() && t in Everyone()
      ensures t.source != null && t.source in sources && t in t.source.subscribers
    {
      var src :| src in sources && t in src.subscribers;
      Follower(src, t);
    }

    lemma Follower(src: Source, t: Session)
      requires src.Valid() && t in src.subscribers
      ensures t.source == src
    {
    }

    /** The working source of a key, if there is one. */
    method Find(key: Key) returns (source: Source?)
      ensures source != null ==> source in sources && !source.failed && source.key == key
      ensures source == null ==> forall s :: s in sources && !s.failed ==> s.key != key
    {
      for i := 0 to |sources|
        invariant forall j :: 0 <= j < i && !sources[j].failed ==> sources[j].key != key
      {
        if !sources[i].failed && sources[i].key == key {
          return sources[i];
        }
      }
      return null;
    }

    /** A packet of the group of a source arrives: what it does there is what the source does with it, and every source
      * stays as it should be. */
    method Dispatch(source: Source, p: Packet, m: Means)
      requires Valid() && source in sources
      modifies source, source.subscribers
      ensures Valid() && source.subscribers == old(source.subscribers) && source.failed == old(source.failed)
      ensures ValidSize(old(source.window).size) && source.AsGroup() == GroupNext(old(source.AsGroup()), p)
      ensures forall s :: s in source.subscribers ==>
        Fits(old(s.Stand()), old(source.AsGroup())) && s.source == source && s.Self() == old(s.Self())
      ensures forall s :: s in source.subscribers && Source.Attended(s, m) ==>
        s.Stand() == MemberNext(old(s.Stand()), s.Self(), old(source.AsGroup()), p, Source.ChanceOf(s, m))
      ensures forall s ::
        s in source.subscribers && s.Willing(m.accepts) && (old(s.batched) ==> old(source.Able(s, m))) ==>
        !s.fecEnabled || old(source.Calm(s, p)) ==> s.missed == old(s.missed)
      ensures !(old(source.sharedOutput) && p.Parity?) ==> forall s :: s in old(source.packetSubscribers) ==>
        Fits(old(s.Stand()), old(source.AsGroup())) &&
        source.Went(s, old(s.Stand()), p, old(source.Seen(s, m)), old(s.missed), m)
      ensures !(old(source.sharedOutput) && p.Parity?) ==> forall s :: s in source.subscribers && old(s.batched) ==>
        s.batched && s.line == old(s.line) &&
        Source.Spared(s, true, old(s.out), old(s.missed), old(s.failed), old(source.Able(s, m)),
          old(source.Viewed(s, m)))
    {
      hide Source.Valid, GroupNext, MemberNext, Session.Stand, Source.AsGroup, Source.Able, Source.Went, Source.Calm,
        Source.Spared, Fits;
      hide Session.Willing, Source.Viewed, Source.Seen, Source.Ready, Source.Attended;
      Apart(source);
      source.ProcessPacket(p, m);
    }

    static ghost predicate Working(src: Source, key: Key)
      reads src`failed
    {
      !src.failed && src.key == key
    }

    /** There is a working source of the key. */
    ghost predicate Known(key: Key)
      reads this`sources, sources`failed
    {
      exists src :: src in sources && Working(src, key)
    }

    /** A window of one's own is needed for a snapshot, during fast channel change, and where there is no shared output:
      * at the working source of the key, or at a new one with a parity port. */
    ghost predicate NeedsWindow(s: Session, key: Key)
      reads this`sources, sources`failed, sources`sharedOutput, s`fcc
    {
      s.snapshot || s.fcc != NoFcc || (exists src :: src in sources && Working(src, key) && !src.sharedOutput) ||
      (key.fecPort > 0 && !Known(key))
    }

    /** The working source that was found is the only one. */
    lemma OnlyOne(found: Source?, s: Session, key: Key)
      requires Keys() && (found != null ==> found in sources && Working(found, key))
      requires found == null ==> !Known(key)
      ensures Known(key) <==> found != null
      ensures NeedsWindow(s, key) <==>
        (if found != null then !found.sharedOutput else key.fecPort > 0) || s.snapshot || s.fcc != NoFcc
    {
      if found != null {
        var j :| 0 <= j < |sources| && sources[j] == found;
        forall i | 0 <= i < |sources| && Working(sources[i], key) ensures i == j {
        }
      }
    }

    lemma NoneKnown(key: Key)
      requires forall src :: src in sources && !src.failed ==> src.key != key
      ensures !Known(key)
    {
    }

    lemma KeysHold()
      requires Valid()
      ensures Keys()
    {
    }

    /** Attach to the working source of a key, or to a new one. `window` tells whether a private window can be had and
      * `opens` whether a new source can be set up. */
    method Join(s: Session, key: Key, window: bool, opens: bool, m: Means) returns (ret: int, source: Source?)
      requires Valid() && (s.source == null ==> s.Private())
      modifies this, sources, Everyone(), s
      ensures Valid() && (ret == 0 || ret == -1)
      ensures ret == 0 <==>
        old(s.source) != null || ((window || !old(NeedsWindow(s, key))) && (opens || old(Known(key))))
      ensures old(s.source) != null ==> ret == 0 && source == s.source == old(s.source) && sources == old(sources)
      ensures ret == -1 ==> sources == old(sources) && s.source == null
      ensures ret == 0 && old(s.source) == null ==>
        source != null && source in sources && s in source.subscribers && !source.failed && source.key == key
      ensures ret == 0 && old(s.source) == null ==> s.batched == (source.sharedOutput && !s.snapshot && s.fcc == NoFcc)
      ensures ret == 0 && old(s.source) == null ==>
        sources == (if exists src :: src in old(sources) && !old(src.failed) && src.key == key then []
          else [source]) + old(sources)
      ensures Everyone() == old(Everyone()) + if ret == 0 && old(s.source) == null then {s} else {}
      ensures forall src :: src in sources ==> src in old(sources) || fresh(src)
      ensures forall t :: t in old(Everyone()) && t != s ==> t.line == old(t.line)
      ensures forall src, t :: src in old(sources) && t in old(src.subscribers) && t != s ==>
        Source.Spared(t, old(t.batched), old(t.out), old(t.missed), old(t.failed), old(src.Able(t, m)),
          old(src.Viewed(t, m)))
    {
      hide Valid, Opened, Source.Valid, Session.Private, Source.Able, Source.Spared, Source.Viewed;
      hide Known, NeedsWindow;
      assert [] + sources == sources;
      AllSpared(m);
      if s.source != null {
        return 0, s.source;
      }
      var ok: bool;
      ok, source := Pick(s, key, window, opens);
      if !ok {
        return -1, null;
      }
      source := Settle(s, key, source, m);
      ret := 0;
    }

    /** The working source of a key, or none, and whether a subscriber can be attached to it, or to a new one. */
    method Pick(s: Session, key: Key, window: bool, opens: bool) returns (ok: bool, source: Source?)
      requires Valid()
      ensures source != null ==> source in sources && !source.failed && source.key == key
      ensures source == null ==> forall src :: src in sources && !src.failed ==> src.key != key
      ensures ok <==> (window || !NeedsWindow(s, key)) && (opens || Known(key))
    {
      hide Valid, Known, NeedsWindow;
      KeysHold();
      source := Find(key);
      if source == null {
        NoneKnown(key);
      }
      OnlyOne(source, s, key);
      var private := (if source != null then !source.sharedOutput else key.fecPort > 0) || s.snapshot || s.fcc != NoFcc;
      if private && !window {
        return false, source;
      }
      if source == null && !opens {
        return false, null;
      }
      ok := true;
    }

    /** Attach to a source that was found, or to a new one. */
    method Settle(s: Session, key: Key, found: Source?, m: Means) returns (source: Source)
      requires Valid() && s.source == null && s.Private()
      requires if found != null then found in sources
        else forall src :: src in sources && !src.failed ==> src.key != key
      modifies this, sources, Everyone(), s
      ensures Valid() && source in sources &&
        source.subscribers == [s] + (if found != null then old(found.subscribers) else [])
      ensures if found != null then
        source == found && source.failed == old(found.failed) && sources == old(sources)
        else fresh(source) && !source.failed && source.key == key && sources == [source] + old(sources)
      ensures s.batched == (source.sharedOutput && !s.snapshot && s.fcc == NoFcc)
      ensures source.sharedOutput == if found != null then old(found.sharedOutput) else key.fecPort == 0
      ensures Everyone() == old(Everyone()) + {s}
      ensures forall t :: t in old(Everyone()) && t != s ==> t.line == old(t.line)
      ensures forall src, t :: src in old(sources) && t in old(src.subscribers) && t != s ==>
        Source.Spared(t, old(t.batched), old(t.out), old(t.missed), old(t.failed), old(src.Able(t, m)),
          old(src.Viewed(t, m)))
    {
      hide Valid, Opened, Source.Valid, Session.Private, Source.Able;
      if found == null {
        source := Open(key);
      } else {
        source := found;
        Found(found);
      }
      ghost var others := source.subscribers;
      Enter(source, s, m);
      forall src, t | src in old(sources) && t in old(src.subscribers) && t != s
        ensures Source.Spared(t, old(t.batched), old(t.out), old(t.missed), old(t.failed), old(src.Able(t, m)),
          old(src.Viewed(t, m)))
      {
        assert src != source ==> t !in others;
      }
    }

    lemma Found(source: Source)
      requires Valid() && source in sources
      ensures Opened(source) && forall i :: 0 <= i < |source.subscribers| ==> source.subscribers[i] in Everyone()
      ensures forall src, t :: src in sources && src != source && t in src.subscribers ==> t !in source.subscribers
    {
      Among(source);
      Apart(source);
    }

    /** All is well, except that a new source may have no subscriber yet. */
    ghost predicate Opened(source: Source)
      reads this`sources, sources, Everyone()
    {
      Keys() && AllValid() && source in sources && forall src :: src in sources && src != source ==> src.refs > 0
    }

    /** Set up a source and register it. */
    method Open(key: Key) returns (source: Source)
      requires Valid() && forall s :: s in sources && !s.failed ==> s.key != key
      modifies this
      ensures fresh(source) && sources == [source] + old(sources) && Opened(source) && Everyone() == old(Everyone())
      ensures source.subscribers == [] && !source.failed && source.key == key &&
        source.sharedOutput == (key.fecPort == 0)
    {
      hide Source.Valid;
      source := new Source(key);
      sources := [source] + sources;
    }

    /** Attach to a registered source. */
    method Enter(source: Source, s: Session, m: Means)
      requires Opened(source) && s.source == null && s.Private()
      modifies s, source, source.subscribers
      ensures Valid() && source.subscribers == [s] + old(source.subscribers) && source.failed == old(source.failed)
      ensures Everyone() == old(Everyone()) + {s}
      ensures s.batched == (source.sharedOutput && !s.snapshot && s.fcc == NoFcc) &&
        source.sharedOutput == old(source.sharedOutput)
      ensures forall t :: t in old(source.subscribers) ==> t.line == old(t.line)
      ensures forall t :: t in old(source.subscribers) ==>
        Source.Spared(t, old(t.batched), old(t.out), old(t.missed), old(t.failed), old(source.Able(t, m)),
          old(source.Viewed(t, m)))
    {
      hide Source.Valid, Session.Private, Source.Spared, Source.Able, Source.Viewed, Everyone, Followers, Keys,
        Source.Fresh;
      Apart(source);
      Elsewhere(s);
      ghost var before: map<Source, seq<Session>> := map src: Source | src in sources :: src.subscribers;
      EveryoneIs(before);
      source.Attach(s, source.sharedOutput && !s.snapshot && s.fcc == NoFcc, m);
      EveryoneIs(before[source := [s] + before[source]]);
      Grown(before, source, s);
    }

    static ghost function Followers(lists: map<Source, seq<Session>>): set<Session> {
      set src: Source, t | src in lists && t in lists[src] :: t
    }

    lemma EveryoneIs(lists: map<Source, seq<Session>>)
      requires forall src :: src in lists <==> src in sources
      requires forall src :: src in sources ==> lists[src] == src.subscribers
      ensures Everyone() == Followers(lists)
    {
      forall t ensures t in Everyone() <==> t in Followers(lists) {
        if t in Everyone() {
          var src :| src in sources && t in src.subscribers;
          assert src in lists && t in lists[src];
        }
        if t in Followers(lists) {
          var src: Source :| src in lists && t in lists[src];
          assert src in sources && t in src.subscribers;
        }
      }
    }

    /** One follower more at one source. */
    static lemma Grown(lists: map<Source, seq<Session>>, source: Source, s: Session)
      requires source in lists
      ensures Followers(lists[source := [s] + lists[source]]) == Followers(lists) + {s}
    {
      var after := lists[source := [s] + lists[source]];
      forall t ensures t in Followers(after) <==> t in Followers(lists) || t == s {
        if t in Followers(after) {
          var src: Source :| src in after && t in after[src];
          assert t == s || (src in lists && t in lists[src]);
        }
        if t in Followers(lists) {
          var src: Source :| src in lists && t in lists[src];
          assert src in after && t in after[src];
        }
        if t == s {
          assert source in after && t in after[source];
        }
      }
    }

    /** As long as nothing happens, nobody misses anything. */
    lemma AllSpared(m: Means)
      ensures forall src, t :: src in sources && t in src.subscribers ==>
        Source.Spared(t, t.batched, t.out, t.missed, t.failed, src.Able(t, m), src.Viewed(t, m))
    {
    }

    lemma Elsewhere(s: Session)
      requires AllValid() && s.source == null
      ensures forall src :: src in sources ==> s !in src.subscribers
    {
      forall src | src in sources ensures s !in src.subscribers {
        if s in src.subscribers {
          Follower(src, s);
        }
      }
    }

    /** Leave the source; the last one to go takes it off the registry. */
    method Leave(s: Session)
      requires Valid() && s.source != null && s.source in sources && s in s.source.subscribers
      modifies this, s.source, s
      ensures Valid() && s.source == null && Everyone() == old(Everyone()) - {s}
      ensures forall t :: t in old(s.source).subscribers <==> t in old(s.source.subscribers) && t != s
      ensures forall src :: src in sources <==> src in old(sources) && (src != old(s.source) || src.refs > 0)
    {
      var source := s.source;
      hide Source.Valid, Everyone, Keys, AllValid;
      Part(source, s);
      if source.refs == 0 {
        Remove(source);
      }
    }

    /** Take a subscriber off its source, which may be left without any. */
    method Part(source: Source, s: Session)
      requires Valid() && s.source == source && source in sources && s in source.subscribers
      modifies source, s
      ensures Opened(source) && s.source == null && Everyone() == old(Everyone()) - {s}
      ensures forall t :: t in source.subscribers <==> t in old(source.subscribers) && t != s
      ensures source.refs == 0 ==> source.subscribers == []
    {
      hide Source.Valid, Everyone, Followers;
      Apart(source);
      ghost var before: map<Source, seq<Session>> := map src: Source | src in sources :: src.subscribers;
      EveryoneIs(before);
      source.Detach(s);
      Alone(source);
      EveryoneIs(before[source := source.subscribers]);
      Shrunk(before, source, source.subscribers, s);
    }

    lemma Alone(source: Source)
      requires source.Valid()
      ensures source.refs == 0 ==> source.subscribers == []
    {
    }

    /** A follower less at one source, and at no other. */
    static lemma Shrunk(lists: map<Source, seq<Session>>, source: Source, rest: seq<Session>, s: Session)
      requires source in lists && forall t :: t in rest <==> t in lists[source] && t != s
      requires forall src :: src in lists && src != source ==> s !in lists[src]
      ensures Followers(lists[source := rest]) == Followers(lists) - {s}
    {
      var after := lists[source := rest];
      forall t ensures t in Followers(after) <==> t in Followers(lists) && t != s {
        if t in Followers(after) {
          var src: Source :| src in after && t in after[src];
          assert src in lists && t in lists[src];
        }
        if t in Followers(lists) && t != s {
          var src: Source :| src in lists && t in lists[src];
          assert src in after && t in after[src];
        }
      }
    }

    method Remove(source: Source)
      requires Opened(source) && source.subscribers == []
      modifies this
      ensures Everyone() == old(Everyone())
      ensures Valid() && forall src :: src in sources <==> src in old(sources) && src != source
    {
      hide Source.Valid;
      var i := 0;
      while i < |sources| && sources[i] != source
        invariant i <= |sources| && source !in sources[..i]
      {
        i := i + 1;
      }
      RemoveAtFacts(sources, i);
      sources := RemoveAt(sources, i);
    }
  }

  /** The list without a session. */
  method Unlink(list: seq<Session>, s: Session) returns (rest: seq<Session>)
    requires Distinct(list)
    ensures Distinct(rest) && |rest| == |list| - (if s in list then 1 else 0) &&
      forall t :: t in rest <==> t in list && t != s
  {
    var i := 0;
    while i < |list| && list[i] != s
      invariant i <= |list| && s !in list[..i]
    {
      i := i + 1;
    }
    rest := list;
    if i < |list| {
      RemoveAtFacts(list, i);
      rest := RemoveAt(list, i);
    }
  }
}
