/** From unicast to the shared output: what a subscriber is handed is one stream. */
module Switching {

  import opened ReorderModel
  import opened DeliveryLog
  import Handoff
  import Change = Fcc

  // ----- numbered packets through a window that delivers -----

  /** Numbered items, one after the other. */
  ghost predicate OneByOne(items: seq<Item>, from: int) {
    forall i :: 0 <= i < |items| ==> items[i].Numbered? && items[i].delivery.number == from + i
  }

  lemma JoinedOneByOne(a: seq<Item>, b: seq<Item>, from: int)
    requires OneByOne(a, from) && OneByOne(b, from + |a|)
    ensures OneByOne(a + b, from)
  {
    forall i | 0 <= i < |a + b| ensures (a + b)[i].Numbered? && (a + b)[i].delivery.number == from + i {
      assert (a + b)[i] == if i < |a| then a[i] else b[i - |a|];
    }
  }

  lemma LastArrival(from: int, packets: seq<Buffer>)
    requires packets != []
    ensures var n := |packets| - 1; var ins := Handoff.Stretch(from, packets);
      |ins| == n + 1 && ins[..n] == Handoff.Stretch(from, packets[..n]) &&
      ins[n] == Arrival((from + n) % 65536, packets[n])
  {
  }

  lemma LastOfRun(w: Window, ins: seq<Arrival>)
    requires ValidSize(w.size) && ins != []
    ensures var n := |ins| - 1; var before, all := Run(w, ins[..n]), Run(w, ins);
      var o := Insert(before.w, ins[n].seqn, ins[n].packet);
      all == Outcome(o.w, before.delivered + o.delivered, before.lost + o.lost)
  {
    hide Insert;
  }

  lemma NothingArrives(w: Window, from: int)
    requires ValidSize(w.size)
    ensures Run(w, Handoff.Stretch(from, [])) == Outcome(w, [], 0) &&
      HandledAll(w, Medias(from, [])) == Effect(w, [], 0)
    ensures TameAll(w, Medias(from, []))
  {
  }

  /** Packets as they come to a subscriber are arrivals at its window. */
  lemma {:induction false} MediasArrive(w: Window, from: int, packets: seq<Buffer>)
    requires Sound(w) && w.phase == 2
    ensures var r := Run(w, Handoff.Stretch(from, packets));
      HandledAll(w, Medias(from, packets)) == Effect(r.w, Items(r.delivered), r.lost) &&
      TameAll(w, Medias(from, packets))
    decreases |packets|
  {
    hide Run, HandledAll, TameAll, Medias, Handoff.Stretch;
    if packets == [] {
      NothingArrives(w, from);
      assert Items([]) == [];
    } else {
      var n := |packets| - 1;
      MediasArrive(w, from, packets[..n]);
      LastArrival(from, packets);
      LastOfMedias(from, packets);
      LastOfRun(w, Handoff.Stretch(from, packets));
      ActiveIsOrderly(w, Handoff.Stretch(from, packets[..n]));
      LastHandled(w, Medias(from, packets));
      var before := Run(w, Handoff.Stretch(from, packets[..n]));
      ItemsJoined(before.delivered, Insert(before.w, (from + n) % 65536, packets[n]).delivered);
      hide Insert, Sound;
    }
  }

  lemma LastHandled(w: Window, ps: seq<Packet>)
    requires ValidSize(w.size) && ps != []
    ensures var n := |ps| - 1; var before := HandledAll(w, ps[..n]); var e := Handled(before.w, ps[n]);
      HandledAll(w, ps) == Effect(e.w, before.items + e.items, before.lost + e.lost) &&
      (TameAll(w, ps[..n]) && Tame(before.w, ps[n]) ==> TameAll(w, ps))
  {
    hide Handled, Tame;
  }

  lemma ItemsJoined(a: seq<Delivery>, b: seq<Delivery>)
    ensures Items(a + b) == Items(a) + Items(b)
  {
  }

  /** A window that delivers, and can take the packets from a number on without giving any up. */
  ghost predicate CanTake(w: Window, from: int) {
    Sound(w) && w.phase == 2 && from <= w.base && w.base + w.size - from < 32768 && Handoff.Surplus(w) + w.size < 65535
  }

  /** What is handed over of them, and where the window stands then. */
  ghost predicate Passes(w: Window, upto: int, e: Effect) {
    Sound(e.w) && e.w.phase == 2 && e.lost == 0 && upto <= e.w.base <= Handoff.Top(w, upto) && w.base <= e.w.base &&
    Handoff.Upto(e.w, Handoff.Top(w, upto)) && Handoff.Surplus(e.w) == Handoff.Surplus(w) && e.w.size == w.size &&
    OneByOne(e.items, w.base) && |e.items| == e.w.base - w.base
  }

  lemma PassesAll(w: Window, from: int, packets: seq<Buffer>)
    requires CanTake(w, from)
    ensures Passes(w, from + |packets|, HandledAll(w, Medias(from, packets))) && TameAll(w, Medias(from, packets))
  {
    hide Run, HandledAll, TameAll, Medias, Handoff.Stretch, Handoff.Surplus;
    Handoff.NoGap(w, from, packets);
    Handoff.HandsOverAll(w, from, packets);
    MediasArrive(w, from, packets);
  }

  // ----- joining the shared output after the switch -----

  /** A subscriber after the switch: its window delivers, and the packets from `from` on that waited will go through it
    * first. */
  ghost predicate AfterSwitch(mb: Member, who: Who, g: Group, from: int, early: seq<Buffer>) {
    CanTake(mb.at.w, from) && mb.waiting == Medias(from, early) && mb.at.line.clean && !mb.batched && !mb.failed &&
    !mb.fec &&
    who.fcc == Active && !who.closing && !who.snapshot &&
    g.shared && ValidSize(g.w.size) && g.w == Window(g.w.size, 2, from + |early|, map[], 0)
  }

  lemma OwnIs(mb: Member, who: Who, from: int, early: seq<Buffer>, later: seq<Buffer>, k: nat)
    requires mb.waiting == Medias(from, early) && who.fcc == Active && 0 < k <= |later|
    ensures var ps := Medias(from + |early|, later);
      k <= |ps| && ps[..k] == Medias(from + |early|, later[..k]) && ps[k - 1].Media? &&
      Own(mb, who, ps[..k]) == Medias(from, early + later[..k])
  {
    var ps := Medias(from + |early|, later);
    assert ps[..k] == Medias(from + |early|, later[..k]);
    assert Medias(from, early) + Medias(from + |early|, later[..k]) == Medias(from, early + later[..k]);
  }

  /** What its own window has handed over after so many packets more, and where it and the shared window stand. */
  lemma AfterSome(mb: Member, who: Who, g: Group, from: int, early: seq<Buffer>, later: seq<Buffer>, k: nat)
    returns (e: Effect)
    requires AfterSwitch(mb, who, g, from, early) && 0 < k <= |later|
    ensures ValidSize(mb.at.w.size) && Passes(mb.at.w, from + |early| + k, e)
    ensures var ps := Medias(from + |early|, later);
      k <= |ps| && ps[k - 1].Media? &&
      var at, group := FollowAll(mb.at, Own(mb, who, ps[..k])), GroupRun(g, ps[..k]);
      at == Place(e.w, mb.at.line.(trace := mb.at.line.trace + e.items)) &&
      group.w == Window(g.w.size, 2, from + |early| + k, map[], 0) && group.lost == g.lost && group.packetType == 1 &&
      group.log == g.log + Numbers(from + |early|, later[..k])
  {
    hide FollowAll, HandledAll, TameAll, Medias, GroupRun, Own, Passes, Numbers, NoParity, NoBare;
    var ps, all := Medias(from + |early|, later), early + later[..k];
    OwnIs(mb, who, from, early, later, k);
    PassesAll(mb.at.w, from, all);
    FollowAllIs(mb.at, Medias(from, all));
    e := HandledAll(mb.at.w, Medias(from, all));
    NothingLost(mb.at.w, from + |early| + k, e);
    MediasAreMedia(from + |early|, later);
    MediasAreMedia(from + |early|, later[..k]);
    InOrderFromThere(g.w.size, from + |early|, later[..k]);
    GroupRunIs(g, Medias(from + |early|, later[..k]));
    LastKind(g, ps, k);
  }

  lemma NothingLost(w: Window, upto: int, e: Effect)
    requires Passes(w, upto, e)
    ensures e.lost == 0
  {
  }

  /** It may join exactly when the counter is right, once every packet held before has gone. */
  lemma BoundaryIs(w: Window, from: int, upto: int, e: Effect, size: nat)
    requires CanTake(w, from) && from <= upto && Passes(w, upto, e)
    ensures Handoff.AtBoundary(e.w, Window(size, 2, upto, map[], 0)) ==> Handoff.Surplus(w) == 0 && e.w.base == upto
    ensures Handoff.Surplus(w) == 0 && upto >= w.base + w.size ==>
      Handoff.AtBoundary(e.w, Window(size, 2, upto, map[], 0))
  {
    Handoff.LooksEmpty(e.w);
    if Handoff.AtBoundary(e.w, Window(size, 2, upto, map[], 0)) {
      Handoff.SameNumber(e.w.base, upto);
    }
    if Handoff.Surplus(w) == 0 && upto >= w.base + w.size {
      assert e.w.held == map[] by {
        assert forall k :: k in e.w.held ==> e.w.base <= k < upto;
      }
    }
  }

  /** All that a subscriber was handed, by itself and as part of the shared output. */
  ghost function HandedOver(mb: Member, g: Group): seq<Item>
    requires Fits(mb, g)
  {
    if mb.batched then Story(mb.at.line, g.log) else mb.at.line.trace
  }

  /** The numbers given up while the subscriber listened, by its own window or by the shared one. */
  ghost function GivenUp(mb: Member, g: Group): int {
    if mb.batched then mb.at.line.lost + g.lost else mb.at.line.lost
  }

  lemma ListensAfter(mb: Member, who: Who, g: Group, from: int, early: seq<Buffer>)
    requires AfterSwitch(mb, who, g, from, early)
    ensures Fits(mb, g) && Listens(mb, who) && ValidSize(mb.at.w.size) && ValidSize(g.w.size) && g.shared &&
      mb.at.line.clean
  {
    MediasAreMedia(from, early);
  }

  /** It may join after so many packets only if the counter was right, and then both windows stand at the same
    * number. */
  lemma MayJoinAt(mb: Member, who: Who, g: Group, from: int, early: seq<Buffer>, later: seq<Buffer>, k: nat)
    requires AfterSwitch(mb, who, g, from, early) && 0 < k <= |later|
    ensures ValidSize(mb.at.w.size)
    ensures var ps, upto := Medias(from + |early|, later), from + |early| + k;
      (MayAt(mb, who, g, ps, k) ==> Handoff.Surplus(mb.at.w) == 0) &&
      (Handoff.Surplus(mb.at.w) == 0 && upto >= mb.at.w.base + mb.at.w.size ==> MayAt(mb, who, g, ps, k))
  {
    hide FollowAll, Medias, GroupRun, Own, Passes, Numbers, CanTake, Handoff.Surplus, Handoff.AtBoundary;
    var e := AfterSome(mb, who, g, from, early, later, k);
    BoundaryIs(mb.at.w, from, from + |early| + k, e, g.w.size);
  }

  lemma EnteredAt(mb: Member, who: Who, g: Group, from: int, early: seq<Buffer>, later: seq<Buffer>, k: nat)
    returns (e: Effect)
    requires AfterSwitch(mb, who, g, from, early) && 0 < k <= |later| && ValidSize(mb.at.w.size)
    requires MayAt(mb, who, g, Medias(from + |early|, later), k)
    ensures OneByOne(e.items, mb.at.w.base) && mb.at.w.base + |e.items| == from + |early| + k
    ensures k <= |Medias(from + |early|, later)|
    ensures Entered(mb, who, g, Medias(from + |early|, later), k).line ==
      mb.at.line.(trace := mb.at.line.trace + e.items, since := |g.log + Numbers(from + |early|, later[..k])|,
                          lost := mb.at.line.lost - g.lost)
  {
    hide FollowAll, Medias, GroupRun, Own, Numbers, CanTake, Handoff.Surplus, Handoff.AtBoundary;
    e := AfterSome(mb, who, g, from, early, later, k);
    BoundaryIs(mb.at.w, from, from + |early| + k, e, g.w.size);
  }

  lemma RestOfLog(log: seq<Item>, from: int, later: seq<Buffer>, k: nat)
    requires k <= |later|
    ensures var front, all := log + Numbers(from, later[..k]), log + Numbers(from, later);
      |front| <= |all| && OneByOne(all[|front|..], from + k) && |all[|front|..]| == |later| - k
  {
  }

  /** After the switch a subscriber is handed every number from the base of its window on, each once, whether it joins
    * the shared output or not; it joins once the packets held before have gone, if and only if its counter is right. */
  lemma JoinsAfterSwitch(mb: Member, who: Who, g: Group, from: int, early: seq<Buffer>, later: seq<Buffer>,
    cs: nat -> Chance)
    returns (more: seq<Item>)
    requires AfterSwitch(mb, who, g, from, early)
    ensures Fits(mb, g)
    ensures var ps := Medias(from + |early|, later);
      var end, after := MemberRun(mb, who, g, ps, cs), GroupRun(g, ps);
      end.at.line.clean && HandedOver(end, after) == mb.at.line.trace + more &&
      GivenUp(end, after) == mb.at.line.lost &&
      OneByOne(more, mb.at.w.base) && (later != [] ==> mb.at.w.base + |more| >= from + |early| + |later|) &&
      (end.batched ==> mb.at.w.base + |more| == from + |early| + |later| && Handoff.Surplus(mb.at.w) == 0) &&
      (later != [] && Handoff.Surplus(mb.at.w) == 0 && from + |early| + |later| >= mb.at.w.base + mb.at.w.size ==>
        end.batched)
  {
    hide *;
    ListensAfter(mb, who, g, from, early);
    var ps, n := Medias(from + |early|, later), |later|;
    MediasAreMedia(from + |early|, later);
    if later == [] {
      more := NothingMore(mb, who, g, from, early, cs);
    } else {
      RunAlone(mb, who, g, ps, cs);
      more := Continues(mb, who, g, from, early, later, MemberRun(mb, who, g, ps, cs));
    }
  }

  lemma NothingMore(mb: Member, who: Who, g: Group, from: int, early: seq<Buffer>, cs: nat -> Chance)
    returns (more: seq<Item>)
    requires AfterSwitch(mb, who, g, from, early) && Fits(mb, g)
    ensures more == [] && mb.at.line.clean && !mb.batched && mb.at.line.trace + [] == mb.at.line.trace &&
      OneByOne(more, mb.at.w.base)
    ensures MemberRun(mb, who, g, Medias(from + |early|, []), cs) == mb && GroupRun(g, Medias(from + |early|, [])) == g
    ensures HandedOver(mb, g) == mb.at.line.trace && GivenUp(mb, g) == mb.at.line.lost
  {
    more := [];
  }

  lemma Continues(mb: Member, who: Who, g: Group, from: int, early: seq<Buffer>, later: seq<Buffer>, end: Member)
    returns (more: seq<Item>)
    requires AfterSwitch(mb, who, g, from, early) && later != [] && Fits(mb, g) && ValidSize(mb.at.w.size)
    requires RanAlone(mb, who, g, Medias(from + |early|, later), end) &&
      Fits(end, GroupRun(g, Medias(from + |early|, later)))
    ensures var after := GroupRun(g, Medias(from + |early|, later));
      end.at.line.clean && HandedOver(end, after) == mb.at.line.trace + more &&
      GivenUp(end, after) == mb.at.line.lost &&
      OneByOne(more, mb.at.w.base) && mb.at.w.base + |more| >= from + |early| + |later| &&
      (end.batched ==> mb.at.w.base + |more| == from + |early| + |later| && Handoff.Surplus(mb.at.w) == 0) &&
      (Handoff.Surplus(mb.at.w) == 0 && from + |early| + |later| >= mb.at.w.base + mb.at.w.size ==> end.batched)
  {
    hide *;
    ListensAfter(mb, who, g, from, early);
    var ps, n := Medias(from + |early|, later), |later|;
    assert |ps| == n && ps[..n] == ps && later[..n] == later by { LengthOf(from + |early|, later); }
    var whole := AfterSome(mb, who, g, from, early, later, n);
    assert !end.batched ==>
      !MayAt(mb, who, g, ps, n) && end.at == FollowAll(mb.at, Own(mb, who, ps)) by { NeverJoined(mb, who, g, ps, end); }
    MayJoinAt(mb, who, g, from, early, later, n);
    if end.batched {
      var k := JoinedThere(mb, who, g, ps, end);
      MayJoinAt(mb, who, g, from, early, later, k);
      var e := EnteredAt(mb, who, g, from, early, later, k);
      RestOfLog(g.log, from + |early|, later, k);
      more := InShared(mb, g, end, e, from + |early|, later, k, GroupRun(g, ps));
    } else {
      more := whole.items;
      ByItself(mb, end, whole, from + |early| + n, GroupRun(g, ps));
    }
  }

  lemma LengthOf(from: int, packets: seq<Buffer>)
    ensures |Medias(from, packets)| == |packets| && Medias(from, packets)[..|packets|] == Medias(from, packets) &&
      packets[..|packets|] == packets
  {
  }

  lemma NeverJoined(mb: Member, who: Who, g: Group, ps: seq<Packet>, end: Member)
    requires ValidSize(mb.at.w.size) && ValidSize(g.w.size) && RanAlone(mb, who, g, ps, end)
    ensures !end.batched ==> !MayAt(mb, who, g, ps, |ps|) && end.at == FollowAll(mb.at, Own(mb, who, ps))
  {
    hide MayAt, FollowAll, Own;
  }

  lemma JoinedThere(mb: Member, who: Who, g: Group, ps: seq<Packet>, end: Member) returns (k: nat)
    requires ValidSize(mb.at.w.size) && ValidSize(g.w.size) && RanAlone(mb, who, g, ps, end) && end.batched
    ensures 0 < k <= |ps| && MayAt(mb, who, g, ps, k) && end.at == Entered(mb, who, g, ps, k)
  {
    hide FollowAll, Own, Entered, GroupRun;
    k :| JoinedAt(mb, who, g, ps, k, end);
  }

  lemma InShared(mb: Member, g: Group, end: Member, e: Effect, from: int, later: seq<Buffer>, k: nat, after: Group)
    returns (more: seq<Item>)
    requires end.batched && Fits(end, after) && k <= |later| && after.log == g.log + Numbers(from, later) &&
      after.lost == g.lost
    requires OneByOne(e.items, mb.at.w.base) && mb.at.w.base + |e.items| == from + k && mb.at.line.clean
    requires end.at.line == mb.at.line.(trace := mb.at.line.trace + e.items,
                                        since := |g.log + Numbers(from, later[..k])|, lost := mb.at.line.lost - g.lost)
    requires var front := g.log + Numbers(from, later[..k]);
      |front| <= |after.log| && OneByOne(after.log[|front|..], from + k) && |after.log[|front|..]| == |later| - k
    ensures HandedOver(end, after) == mb.at.line.trace + more && GivenUp(end, after) == mb.at.line.lost &&
      end.at.line.clean
    ensures OneByOne(more, mb.at.w.base) && mb.at.w.base + |more| == from + |later|
  {
    hide Numbers, OneByOne;
    var rest := after.log[end.at.line.since..];
    more := e.items + rest;
    JoinedOneByOne(e.items, rest, mb.at.w.base);
    assert mb.at.line.trace + e.items + rest == mb.at.line.trace + more;
  }

  lemma ByItself(mb: Member, end: Member, e: Effect, upto: int, after: Group)
    requires !end.batched && Fits(end, after) && Passes(mb.at.w, upto, e) && mb.at.line.clean
    requires end.at == Place(e.w, mb.at.line.(trace := mb.at.line.trace + e.items))
    ensures HandedOver(end, after) == mb.at.line.trace + e.items && GivenUp(end, after) == mb.at.line.lost &&
      end.at.line.clean
    ensures OneByOne(e.items, mb.at.w.base) && mb.at.w.base + |e.items| >= upto
  {
  }

  // ----- a session in which unicast comes to its end -----

  /** What happens to a subscriber with fast channel change: packets from its unicast server and from the group, answers
    * of the server, and the clock. `seen` is the name by which the packet is known, `c` what can be had when it
    * comes. */
  datatype Event =
    | FromServer(peer: int, now: int, seqn: Seq16, payload: Buffer)
    | FromGroup(seen: nat, seqn: Seq16, payload: Buffer, c: Chance)
    | Answer(buf: seq<int>, peer: int, now: int, requested: bool)
    | Clock(now: int)

  /** Fast channel change, the subscriber, and the source it came to. */
  datatype Viewer = Viewer(f: Change.Fields, mb: Member, g: Group)

  /** What the state of fast channel change means for the packets of the group. */
  ghost function Attends(f: Change.Fields): Fcc {
    if !f.initialized then NoFcc
    else if f.state == Change.McastActive then Active
    else if f.state == Change.McastRequested then Requested
    else OtherFcc
  }

  ghost function Watcher(f: Change.Fields, fecInitialized: bool): Who {
    Who(Attends(f), fecInitialized, false, false)
  }

  /** A unicast packet goes through the window until the switch. */
  ghost predicate Unicast(v: Viewer, peer: int) {
    v.f.initialized && v.f.open && !(v.f.verifyServer && v.f.server.Server? && peer != v.f.server.ip) &&
    v.f.state != Change.McastActive &&
    !v.mb.batched && !v.mb.failed
  }

  /** The server is told to stop, or was told before. */
  ghost predicate Stops(f: Change.Fields, sent: bool) {
    f.termSent || (f.open && f.server.Server? && sent)
  }

  ghost function Next(v: Viewer, e: Event, fecInitialized: bool): Viewer
    requires Fits(v.mb, v.g)
  {
    match e
    case FromServer(peer, now, seqn, payload) =>
      var mb := if Unicast(v, peer) then TakeIn(v.mb, fecInitialized, Media(seqn, payload)) else v.mb;
      Viewer(Change.React(v.f, Change.Media(peer, now, mb.at.w.phase, mb.at.w.base % 65536)).next, mb, v.g)
    case FromGroup(seen, seqn, payload, c) =>
      var p, chance := Media(seqn, payload), c.(stops := Stops(v.f, c.stops));
      var f := if v.mb.batched || v.mb.failed then v.f
               else Change.React(v.f, Change.Multicast(Change.Packet(true, seqn, seen), c.stops)).next;
      Viewer(f, MemberNext(v.mb, Watcher(v.f, fecInitialized), v.g, p, chance), GroupNext(v.g, p))
    case Answer(buf, peer, now, requested) => v.(f := Change.React(v.f, Change.Control(buf, peer, now, requested)).next)
    case Clock(now) => v.(f := Change.React(v.f, Change.Tick(now)).next)
  }

  lemma NextFits(v: Viewer, e: Event, fecInitialized: bool)
    requires Fits(v.mb, v.g)
    ensures var next := Next(v, e, fecInitialized); Fits(next.mb, next.g)
  {
    if e.FromServer? && Unicast(v, e.peer) {
      HandledSize(v.mb.at.w, Media(e.seqn, e.payload));
    } else if e.FromGroup? {
      MemberFits(v.mb, Watcher(v.f, fecInitialized), v.g, Media(e.seqn, e.payload),
        e.c.(stops := Stops(v.f, e.c.stops)));
    }
    hide Handled, Tame, MemberNext, GroupNext, Change.React;
  }

  ghost function RunOf(v: Viewer, es: seq<Event>, fecInitialized: bool): (end: Viewer)
    requires Fits(v.mb, v.g)
    ensures Fits(end.mb, end.g)
    decreases |es|
  {
    if es == [] then v
    else
      var before := RunOf(v, es[..|es| - 1], fecInitialized);
      NextFits(before, es[|es| - 1], fecInitialized);
      Next(before, es[|es| - 1], fecInitialized)
  }

  /** The payloads that came from the group. */
  ghost function Came(es: seq<Event>): seq<Buffer>
    decreases |es|
  {
    if es == [] then [] else Came(es[..|es| - 1]) + CameWith(es[|es| - 1])
  }

  ghost function CameWith(e: Event): seq<Buffer> {
    if e.FromGroup? then [e.payload] else []
  }

  /** The packets of the group are numbered one after the other. */
  ghost predicate InTurn(es: seq<Event>, from: int)
    decreases |es|
  {
    es == [] ||
    (InTurn(es[..|es| - 1], from) &&
      (es[|es| - 1].FromGroup? ==> es[|es| - 1].seqn == (from + |Came(es[..|es| - 1])|) % 65536))
  }

  /** The server can be told to stop. */
  ghost predicate Told(es: seq<Event>) {
    forall i :: 0 <= i < |es| ==> (es[i].FromGroup? ==> es[i].c.stops)
  }

  // ----- before the switch -----

  /** Multicast was asked for and unicast goes on; `came` has come from the group since, from number `from` on, and
    * waits. */
  ghost predicate Awaits(v: Viewer, from: int, came: seq<Buffer>) {
    Change.Good(v.f) && Change.Heads(v.f) && v.f.initialized && v.f.open && Change.Switched(v.f.state) &&
    (v.f.termSent <==> came != []) && (came != [] ==> v.f.termSeqn == from % 65536) &&
    !v.mb.batched && !v.mb.failed && !v.mb.fec && v.mb.waiting == Medias(from, came) &&
    Straight(v.mb.at.w, v.mb.at.line) &&
    v.g.shared && ValidSize(v.g.w.size) && v.g.w == Window(v.g.w.size, 2, from + |came|, map[], 0)
  }

  lemma AwaitsFits(v: Viewer, from: int, came: seq<Buffer>)
    requires Awaits(v, from, came)
    ensures Fits(v.mb, v.g)
  {
  }

  /** Fast channel change as the invariant sees it. */
  ghost predicate Steady(f: Change.Fields, next: Change.Fields) {
    Change.Good(next) && Change.Heads(next) && next.initialized && next.open && Change.Switched(next.state) &&
    next.termSent == f.termSent && next.termSeqn == f.termSeqn
  }

  lemma ChangeSteady(f: Change.Fields, e: Change.Event)
    requires Change.Good(f) && Change.Heads(f) && f.initialized && f.open && f.state == Change.McastRequested
    requires e.Media? || e.Control? || e.Tick?
    ensures Steady(f, Change.React(f, e).next)
  {
    Change.ReactGood(f, e);
    Change.HeadsStep(f, e);
    Change.OneArrived(f, e);
    if e.Control? && f.server.Server? {
      Change.AnswerLeaves(f.(lastData := e.now), e.buf, e.now, e.requested);
    }
    hide Change.Answered, Diff, Change.Good, Change.Heads;
  }

  lemma ServerArrives(v: Viewer, from: int, came: seq<Buffer>, e: Event, fecInitialized: bool)
    requires Awaits(v, from, came) && v.f.state == Change.McastRequested && e.FromServer?
    ensures Fits(v.mb, v.g) && Awaits(Next(v, e, fecInitialized), from, came + CameWith(e))
    ensures Next(v, e, fecInitialized).g.lost == v.g.lost
  {
    hide Change.React, Follow, Straight, Change.Good, Change.Heads, Unicast, Medias;
    AwaitsFits(v, from, came);
    var p := Media(e.seqn, e.payload);
    var mb := if Unicast(v, e.peer) then TakeIn(v.mb, fecInitialized, p) else v.mb;
    FollowStraight(v.mb.at, p) by { StraightSize(v.mb.at); }
    ChangeSteady(v.f, Change.Media(e.peer, e.now, mb.at.w.phase, mb.at.w.base % 65536));
    assert came + [] == came;
  }

  lemma StraightSize(at: Place)
    requires Straight(at.w, at.line)
    ensures ValidSize(at.w.size)
  {
  }

  lemma SignalComes(v: Viewer, from: int, came: seq<Buffer>, e: Event, fecInitialized: bool)
    requires Awaits(v, from, came) && v.f.state == Change.McastRequested && (e.Answer? || e.Clock?)
    ensures Fits(v.mb, v.g) && Awaits(Next(v, e, fecInitialized), from, came + CameWith(e))
    ensures Next(v, e, fecInitialized).g.lost == v.g.lost
  {
    hide Change.React, Straight, Change.Good, Change.Heads, Medias;
    assert came + [] == came;
    if e.Answer? {
      ChangeSteady(v.f, Change.Control(e.buf, e.peer, e.now, e.requested));
    } else {
      ChangeSteady(v.f, Change.Tick(e.now));
    }
    AwaitsFits(v, from, came);
  }

  /** The first packet of the group tells the server where to stop; it waits, and so do those that follow. */
  lemma GroupArrives(v: Viewer, from: int, came: seq<Buffer>, e: Event, fecInitialized: bool)
    requires Awaits(v, from, came) && v.f.state == Change.McastRequested && e.FromGroup? && e.c.stops &&
      e.seqn == (from + |came|) % 65536
    ensures Fits(v.mb, v.g) && Awaits(Next(v, e, fecInitialized), from, came + CameWith(e))
    ensures Next(v, e, fecInitialized).g.lost == v.g.lost
  {
    hide Straight, Medias;
    var n, p, packet := |came|, Media(e.seqn, e.payload), Change.Packet(true, e.seqn, e.seen);
    WaitsToo(v.f, packet, e.c.stops);
    OneDelivered(v.g.w.size, from + n, e.payload);
    OneMoreMedia(from, came, e.payload);
    hide Change.React, Change.Good, Change.Heads, Handled, Tame;
    AwaitsFits(v, from, came);
  }

  lemma OneMoreMedia(from: int, came: seq<Buffer>, b: Buffer)
    ensures Medias(from, came) + [Media((from + |came|) % 65536, b)] == Medias(from, came + [b]) && came + [b] != []
  {
  }

  lemma WaitsToo(f: Change.Fields, packet: Change.Packet, sent: bool)
    requires Change.Good(f) && Change.Heads(f) && f.initialized && f.open && f.state == Change.McastRequested &&
      packet.wellFormed && sent
    ensures var next := Change.React(f, Change.Multicast(packet, sent)).next;
      Change.Good(next) && Change.Heads(next) && next.initialized && next.open && next.state == Change.McastRequested &&
      next.termSent &&
      next.termSeqn == (if f.termSent then f.termSeqn else packet.seqn) && Stops(f, sent)
  {
    Change.ReactGood(f, Change.Multicast(packet, sent));
    Change.HeadsStep(f, Change.Multicast(packet, sent));
  }

  /** An event before the switch. */
  lemma AwaitsNext(v: Viewer, from: int, came: seq<Buffer>, e: Event, fecInitialized: bool)
    requires Awaits(v, from, came) && v.f.state == Change.McastRequested
    requires e.FromGroup? ==> e.c.stops && e.seqn == (from + |came|) % 65536
    ensures Fits(v.mb, v.g) && Awaits(Next(v, e, fecInitialized), from, came + CameWith(e))
    ensures var next := Next(v, e, fecInitialized); next.g.lost == v.g.lost
  {
    hide *;
    AwaitsFits(v, from, came);
    match e
    case FromServer(_, _, _, _) => ServerArrives(v, from, came, e, fecInitialized);
    case FromGroup(_, _, _, _) => GroupArrives(v, from, came, e, fecInitialized);
    case Answer(_, _, _, _) => SignalComes(v, from, came, e, fecInitialized);
    case Clock(_) => SignalComes(v, from, came, e, fecInitialized);
  }

  /** Nothing leads back from multicast. */
  lemma NotBack(v: Viewer, e: Event, fecInitialized: bool)
    requires Fits(v.mb, v.g) && v.f.initialized && Change.Switched(v.f.state)
    ensures var next := Next(v, e, fecInitialized);
      next.f.initialized && Change.Switched(next.f.state) &&
      (v.f.state == Change.McastActive ==> next.f.state == Change.McastActive)
  {
    hide Change.React, Change.Switched, MemberNext, GroupNext, TakeIn, Unicast;
    match e
    case FromServer(peer, now, seqn, payload) =>
      UnicastFits(v, peer);
      var mb := if Unicast(v, peer) then TakeIn(v.mb, fecInitialized, Media(seqn, payload)) else v.mb;
      Change.Step(v.f, Change.Media(peer, now, mb.at.w.phase, mb.at.w.base % 65536));
    case FromGroup(seen, seqn, payload, c) =>
      Change.Step(v.f, Change.Multicast(Change.Packet(true, seqn, seen), c.stops));
    case Answer(buf, peer, now, requested) => Change.Step(v.f, Change.Control(buf, peer, now, requested));
    case Clock(now) => Change.Step(v.f, Change.Tick(now));
  }

  lemma UnicastFits(v: Viewer, peer: int)
    requires Fits(v.mb, v.g)
    ensures Unicast(v, peer) ==> ValidSize(v.mb.at.w.size)
  {
  }

  /** Every event up to the switch. */
  lemma {:induction false} AwaitsAll(v: Viewer, from: int, es: seq<Event>, fecInitialized: bool)
    requires Awaits(v, from, []) && Fits(v.mb, v.g) && InTurn(es, from) && Told(es)
    ensures var end := RunOf(v, es, fecInitialized);
      end.f.initialized && Change.Switched(end.f.state) &&
      (end.f.state == Change.McastRequested ==> Awaits(end, from, Came(es)) && end.g.lost == v.g.lost)
    decreases |es|
  {
    hide Next, Fits;
    if es != [] {
      var n := |es| - 1;
      var before := RunOf(v, es[..n], fecInitialized);
      assert Told(es[..n]);
      AwaitsAll(v, from, es[..n], fecInitialized);
      NotBack(before, es[n], fecInitialized);
      hide Awaits;
      if before.f.state == Change.McastRequested {
        AwaitsNext(before, from, Came(es[..n]), es[n], fecInitialized);
      }
    }
  }

  // ----- the switch, and what comes after it -----

  /** A unicast packet completes the switch: the packets that waited come first in what follows. */
  lemma SwitchesAt(v: Viewer, from: int, came: seq<Buffer>, e: Event, fecInitialized: bool)
    requires Awaits(v, from, came) && Fits(v.mb, v.g) && v.f.state == Change.McastRequested && e.FromServer?
    requires var next := Next(v, e, fecInitialized); var w := next.mb.at.w;
      next.f.state == Change.McastActive && next.mb.at.line.clean &&
      -32768 <= w.base - from && w.base + w.size - from < 32768 && Handoff.Surplus(w) + w.size < 65535
    ensures var next := Next(v, e, fecInitialized);
      from <= next.mb.at.w.base && AfterSwitch(next.mb, Watcher(next.f, fecInitialized), next.g, from, came) &&
      next.g == v.g
  {
    var next := Next(v, e, fecInitialized);
    var w := next.mb.at.w;
    Change.SwitchedAt(v.f, Change.Media(e.peer, e.now, w.phase, w.base % 65536), w);
    ServerArrives(v, from, came, e, fecInitialized);
    hide Next, Medias, Change.React, Change.Heads, Handoff.Surplus;
    SwitchedFrom(v, from, came, w);
  }

  lemma SwitchedFrom(v: Viewer, from: int, came: seq<Buffer>, w: Window)
    requires Awaits(v, from, came) && v.f.pending != [] && Change.Announced(v.f, w) % 65536 == v.f.termSeqn
    requires Change.Announced(v.f, w) <= w.base && -32768 <= w.base - from < 32768
    ensures Change.Announced(v.f, w) == from
  {
  }

  ghost function Anything(k: nat): Chance { Chance(true, true, true) }

  /** After the switch a subscriber and its source see the packets of the group and nothing else. */
  lemma {:induction false} OnlyGroup(v: Viewer, es: seq<Event>, from: int, fecInitialized: bool)
    requires Fits(v.mb, v.g) && v.f.initialized && v.f.state == Change.McastActive && InTurn(es, from)
    ensures var end, who := RunOf(v, es, fecInitialized), Watcher(v.f, fecInitialized);
      end.mb == MemberRun(v.mb, who, v.g, Medias(from, Came(es)), Anything) &&
      end.g == GroupRun(v.g, Medias(from, Came(es))) &&
      end.f.initialized && end.f.state == Change.McastActive
    decreases |es|
  {
    hide Next, Fits, MemberRun, GroupRun, Medias;
    if es == [] {
      NothingFromGroup(v, from, fecInitialized);
    } else {
      var n, who := |es| - 1, Watcher(v.f, fecInitialized);
      OnlyGroup(v, es[..n], from, fecInitialized);
      var before := RunOf(v, es[..n], fecInitialized);
      NotBack(before, es[n], fecInitialized);
      if es[n].FromGroup? {
        OneFromGroup(v, from, Came(es[..n]), who, before, es[n], fecInitialized);
      } else {
        NoneFromGroup(before, es[n], fecInitialized);
        assert Came(es[..n]) + [] == Came(es[..n]);
      }
    }
  }

  lemma NothingFromGroup(v: Viewer, from: int, fecInitialized: bool)
    requires Fits(v.mb, v.g)
    ensures MemberRun(v.mb, Watcher(v.f, fecInitialized), v.g, Medias(from, []), Anything) == v.mb &&
      GroupRun(v.g, Medias(from, [])) == v.g
  {
  }

  lemma NoneFromGroup(v: Viewer, e: Event, fecInitialized: bool)
    requires Fits(v.mb, v.g) && v.f.state == Change.McastActive && !e.FromGroup?
    ensures var next := Next(v, e, fecInitialized); next.mb == v.mb && next.g == v.g
  {
    hide Change.React, TakeIn;
  }

  lemma OneFromGroup(v: Viewer, from: int, came: seq<Buffer>, who: Who, before: Viewer, e: Event, fecInitialized: bool)
    requires Fits(v.mb, v.g) && who.fcc == Active && who == Watcher(before.f, fecInitialized) && e.FromGroup?
    requires e.seqn == (from + |came|) % 65536 && Fits(before.mb, before.g)
    requires before.mb == MemberRun(v.mb, who, v.g, Medias(from, came), Anything) &&
      before.g == GroupRun(v.g, Medias(from, came))
    ensures var next, all := Next(before, e, fecInitialized), Medias(from, came + [e.payload]);
      next.mb == MemberRun(v.mb, who, v.g, all, Anything) && next.g == GroupRun(v.g, all)
  {
    hide MemberNext, GroupNext, Change.React, Medias;
    var ps, p := Medias(from, came), Media(e.seqn, e.payload);
    OneMoreMedia(from, came, e.payload);
    assert (ps + [p])[..|ps|] == ps && (ps + [p])[|ps|] == p;
    SameEither(before.mb, who, before.g, p, Anything(|ps|), e.c.(stops := Stops(before.f, e.c.stops)));
  }

  /** Once multicast is on, nothing need be had for a packet of the group. */
  lemma SameEither(mb: Member, who: Who, g: Group, p: Packet, c: Chance, d: Chance)
    requires Fits(mb, g) && who.fcc == Active && p.Media?
    ensures MemberNext(mb, who, g, p, c) == MemberNext(mb, who, g, p, d)
  {
    hide GroupNext, TakeInAll, MayJoin;
  }

  // ----- one stream -----

  lemma AccountedMore(items: seq<Item>, w: Window, lost: int, more: seq<Item>)
    requires w.phase == 2 && Accounted(items, w, lost) && OneByOne(more, w.base)
    ensures Accounted(items + more, Window(w.size, 2, w.base + |more|, map[], 0), lost)
  {
    hide Count;
    var end := w.base + |more|;
    AllCounted(more, w.base);
    CountConcat(items, more);
    var first :| Ascending(items, first, w.base) && w.base - first == Count(items) + lost;
    assert Ascending(more, w.base, end);
    NotBeyond(items, first, w.base, lost);
    AscendingConcat(items, more, first, w.base, end);
    assert Ascending(items + more, first, end);
  }

  lemma NotBeyond(items: seq<Item>, first: int, base: int, lost: int)
    requires base - first == Count(items) + lost && lost >= 0
    ensures first <= base
  {
  }

  lemma {:induction false} AllCounted(items: seq<Item>, from: int)
    requires OneByOne(items, from)
    ensures Count(items) == |items|
    decreases |items|
  {
    if items != [] {
      var n := |items| - 1;
      assert forall i :: 0 <= i < n ==> items[..n][i] == items[i];
      AllCounted(items[..n], from);
    }
  }

  /** A unicast packet ends the unicast: the window delivers from within half the number space of the packets that
    * waited, and what the counter is ahead does not bring it round. */
  ghost predicate Completes(v: Viewer, e: Event, from: int, fecInitialized: bool)
    requires Fits(v.mb, v.g)
  {
    var next := Next(v, e, fecInitialized);
    var w := next.mb.at.w;
    e.FromServer? && v.f.state == Change.McastRequested && next.f.state == Change.McastActive &&
    next.mb.at.line.clean &&
    -32768 <= w.base - from && w.base + w.size - from < 32768 && Handoff.Surplus(w) + w.size < 65535
  }

  /** What a subscriber was handed until the switch, and what came after it: every number from the base of its window
    * on, each once and in order, with no number given up, at least up to the last packet of the group. It ends up
    * following the shared output exactly when its counter is right, once the packets held at the switch have gone. */
  ghost predicate OneStream(at: Place, end: Viewer, upto: int, more: seq<Item>)
    requires Fits(end.mb, end.g)
  {
    var last := at.w.base + |more|;
    HandedOver(end.mb, end.g) == at.line.trace + more && OneByOne(more, at.w.base) &&
    GivenUp(end.mb, end.g) == at.line.lost &&
    end.mb.at.line.clean && Accounted(at.line.trace + more, Window(at.w.size, 2, last, map[], 0), at.line.lost) &&
    last >= upto &&
    (end.mb.batched ==> last == upto && Handoff.Surplus(at.w) == 0) &&
    (Handoff.Surplus(at.w) == 0 && upto >= at.w.base + at.w.size ==> end.mb.batched)
  }

  /** From unicast to the shared output without a gap: packets of the server and of the group, answers and the clock may
    * come in any order while multicast was asked for; the packets of the group wait; once unicast has reached the first
    * of them, they and those that come later follow on what unicast delivered. */
  lemma UnicastThenShared(v: Viewer, from: int, before: seq<Event>, e: Event, after: seq<Event>, fecInitialized: bool)
    returns (more: seq<Item>)
    requires Awaits(v, from, []) && Fits(v.mb, v.g) && InTurn(before, from) && Told(before) &&
      InTurn(after, from + |Came(before)|)
    requires Completes(RunOf(v, before, fecInitialized), e, from, fecInitialized) && Came(after) != []
    ensures var at := RunOf(v, before + [e], fecInitialized).mb.at;
      from <= at.w.base &&
      OneStream(at, RunOf(v, before + [e] + after, fecInitialized), from + |Came(before)| + |Came(after)|, more)
  {
    hide *;
    var x := RunOf(v, before, fecInitialized);
    AwaitsAll(v, from, before, fecInitialized);
    assert x.f.state == Change.McastRequested by { JustBefore(x, e, from, fecInitialized); }
    SwitchHere(x, from, Came(before), e, fecInitialized);
    NextFits(x, e, fecInitialized);
    var y := Next(x, e, fecInitialized);
    RunsOn(v, before, e, after, fecInitialized);
    OnlyGroup(y, after, from + |Came(before)|, fecInitialized);
    more := JoinsAfterSwitch(y.mb, Watcher(y.f, fecInitialized), y.g, from, Came(before), Came(after), Anything);
    TellsAll(y.mb.at, RunOf(y, after, fecInitialized), from + |Came(before)| + |Came(after)|, more);
  }

  lemma JustBefore(v: Viewer, e: Event, from: int, fecInitialized: bool)
    requires Fits(v.mb, v.g) && Completes(v, e, from, fecInitialized)
    ensures v.f.state == Change.McastRequested
  {
    hide Next;
  }

  lemma SwitchHere(v: Viewer, from: int, came: seq<Buffer>, e: Event, fecInitialized: bool)
    requires Awaits(v, from, came) && Fits(v.mb, v.g) && Completes(v, e, from, fecInitialized)
    ensures var next := Next(v, e, fecInitialized);
      from <= next.mb.at.w.base && AfterSwitch(next.mb, Watcher(next.f, fecInitialized), next.g, from, came) &&
      next.f.initialized && next.f.state == Change.McastActive &&
      next.mb.at.w.phase == 2 && Accounted(next.mb.at.line.trace, next.mb.at.w, next.mb.at.line.lost)
  {
    SwitchesAt(v, from, came, e, fecInitialized);
    ServerArrives(v, from, came, e, fecInitialized);
    hide Next, Handoff.Surplus, Accounted;
  }

  lemma {:induction false} RunsOn(v: Viewer, before: seq<Event>, e: Event, after: seq<Event>, fecInitialized: bool)
    requires Fits(v.mb, v.g)
    ensures var x := RunOf(v, before, fecInitialized); var y := Next(x, e, fecInitialized);
      Fits(y.mb, y.g) && RunOf(v, before + [e], fecInitialized) == y &&
      RunOf(v, before + [e] + after, fecInitialized) == RunOf(y, after, fecInitialized)
    decreases |after|
  {
    hide Next, Fits;
    NextFits(RunOf(v, before, fecInitialized), e, fecInitialized);
    assert (before + [e])[..|before|] == before;
    if after == [] {
      assert before + [e] + after == before + [e];
    } else {
      var n := |after| - 1;
      RunsOn(v, before, e, after[..n], fecInitialized);
      assert (before + [e] + after)[..|before| + 1 + n] == before + [e] + after[..n];
    }
  }

  lemma TellsAll(at: Place, end: Viewer, upto: int, more: seq<Item>)
    requires Fits(end.mb, end.g) && at.w.phase == 2 && Accounted(at.line.trace, at.w, at.line.lost)
    requires end.mb.at.line.clean && HandedOver(end.mb, end.g) == at.line.trace + more &&
      GivenUp(end.mb, end.g) == at.line.lost
    requires OneByOne(more, at.w.base) && at.w.base + |more| >= upto
    requires end.mb.batched ==> at.w.base + |more| == upto && Handoff.Surplus(at.w) == 0
    requires Handoff.Surplus(at.w) == 0 && upto >= at.w.base + at.w.size ==> end.mb.batched
    ensures OneStream(at, end, upto, more)
  {
    AccountedMore(at.line.trace, at.w, at.line.lost, more);
    hide Accounted, OneByOne, HandedOver, Handoff.Surplus, GivenUp;
  }
}
