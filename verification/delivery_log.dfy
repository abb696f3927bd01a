/** What a subscriber is handed, in order: numbered packets out of a reorder window, and bare payloads in between. */
module DeliveryLog {

  import opened ReorderModel
  import Handoff

  type Byte = bv8

  datatype Item = Numbered(delivery: Delivery) | Bare(data: Payload) {
    function Bytes(): Payload {
      if Numbered? then delivery.packet.data else data
    }
  }

  /** A datagram as it is classified on arrival; `ts` tells whether a bare payload is a transport stream, `valid`
    * whether a parity packet makes sense. */
  datatype Packet =
    Malformed | Parity(valid: bool) | Plain(data: Payload, ts: bool) | Media(seqn: Seq16, payload: Buffer)

  ghost function Payloads(items: seq<Item>): seq<Byte> {
    if items == [] then [] else Payloads(items[..|items| - 1]) + items[|items| - 1].Bytes()
  }

  lemma PayloadsOne(items: seq<Item>, item: Item)
    ensures Payloads(items + [item]) == Payloads(items) + item.Bytes()
  {
    assert (items + [item])[..|items|] == items;
  }

  lemma PaidOne(base: seq<Byte>, items: seq<Item>, item: Item, out: seq<Byte>)
    requires out == base + Payloads(items)
    ensures out + item.Bytes() == base + Payloads(items + [item])
  {
    PayloadsOne(items, item);
    hide Item.Bytes, Payloads;
  }

  function Items(ds: seq<Delivery>): seq<Item> {
    seq(|ds|, i requires 0 <= i < |ds| => Numbered(ds[i]))
  }

  // ----- every number once, in order -----

  /** Numbers strictly increase, within lo .. hi - 1, whatever lies in between. */
  ghost predicate Ascending(items: seq<Item>, lo: int, hi: int) {
    (forall i :: 0 <= i < |items| && items[i].Numbered? ==> lo <= items[i].delivery.number < hi) &&
    forall i, j :: 0 <= i < j < |items| && items[i].Numbered? && items[j].Numbered? ==>
      items[i].delivery.number < items[j].delivery.number
  }

  ghost function Count(items: seq<Item>): nat {
    if items == [] then 0 else Count(items[..|items| - 1]) + if items[|items| - 1].Numbered? then 1 else 0
  }

  /** What was handed over is accounted for against a window: nothing numbered before delivery starts; then every number
    * from the first one to the base was handed over once, in order, or is counted as lost. */
  ghost predicate Accounted(items: seq<Item>, w: Window, lost: int) {
    if w.phase < 2 then Count(items) == 0 && lost == 0
    else lost >= 0 && exists first :: Ascending(items, first, w.base) && w.base - first == Count(items) + lost
  }

  lemma {:induction false} CountConcat(a: seq<Item>, b: seq<Item>)
    ensures Count(a + b) == Count(a) + Count(b)
  {
    if b == [] {
      assert a + b == a;
    } else {
      var n := |b| - 1;
      CountConcat(a, b[..n]);
      assert (a + b)[..|a| + n] == a + b[..n];
    }
  }

  lemma {:induction false} CountItems(ds: seq<Delivery>)
    ensures Count(Items(ds)) == |ds|
  {
    if ds != [] {
      CountItems(ds[..|ds| - 1]);
      assert Items(ds)[..|ds| - 1] == Items(ds[..|ds| - 1]);
    }
  }

  lemma {:induction false} CountNone(items: seq<Item>)
    ensures Count(items) == 0 <==> forall i :: 0 <= i < |items| ==> items[i].Bare?
  {
    if items != [] {
      CountNone(items[..|items| - 1]);
      assert forall i :: 0 <= i < |items| - 1 ==> items[..|items| - 1][i] == items[i];
    }
  }

  lemma AscendingConcat(a: seq<Item>, b: seq<Item>, lo: int, mid: int, hi: int)
    requires lo <= mid <= hi && Ascending(a, lo, mid) && Ascending(b, mid, hi)
    ensures Ascending(a + b, lo, hi)
  {
    var all := a + b;
    forall i, j | 0 <= i < j < |all| && all[i].Numbered? && all[j].Numbered?
      ensures all[i].delivery.number < all[j].delivery.number
    {
      assert all[i] == if i < |a| then a[i] else b[i - |a|];
      assert all[j] == if j < |a| then a[j] else b[j - |a|];
    }
  }

  lemma ItemsAscend(ds: seq<Delivery>, lo: int, hi: int)
    requires Increasing(ds, lo, hi)
    ensures Ascending(Items(ds), lo, hi)
  {
  }

  lemma BareAscend(items: seq<Item>, lo: int)
    requires Count(items) == 0
    ensures Ascending(items, lo, lo)
  {
    CountNone(items);
  }

  // ----- one packet -----

  /** Where a subscriber stands: its window, and what it was handed since `base` went out. `since` is where in the log
    * of its source it came in, `lost` the numbers given up (less those of the source while it follows the shared
    * output), and `clean` tells that numbers were near each other while packets were collected. */
  datatype Line = Line(base: seq<Byte>, trace: seq<Item>, since: nat, lost: int, clean: bool)

  datatype Effect = Effect(w: Window, items: seq<Item>, lost: nat)

  /** What a packet does to a window, and what comes out. */
  function Handled(w: Window, p: Packet): Effect
    requires ValidSize(w.size)
  {
    match p
    case Media(seqn, payload) =>
      var o := Insert(w, seqn, payload);
      Effect(o.w, Items(o.delivered), o.lost)
    case Plain(data, ts) => Effect(w, if ts then [Bare(data)] else [], 0)
    case _ => Effect(w, [], 0)
  }

  /** The packet is near those collected. */
  ghost predicate Tame(w: Window, p: Packet)
    requires ValidSize(w.size)
  {
    p.Media? ==> Orderly(w, p.seqn)
  }

  /** One packet more keeps what was handed over accounted for. */
  lemma HandledAccounted(items: seq<Item>, w: Window, lost: int, p: Packet)
    requires Sound(w) && Tame(w, p) && Accounted(items, w, lost)
    ensures var e := Handled(w, p); Sound(e.w) && Accounted(items + e.items, e.w, lost + e.lost)
  {
    hide Insert, Orderly, Accounted, Items;
    if p.Media? {
      InsertAccounted(items, w, lost, p.seqn, p.payload);
    } else {
      BareAccounted(items, w, lost, Handled(w, p).items);
    }
  }

  lemma BareAccounted(items: seq<Item>, w: Window, lost: int, more: seq<Item>)
    requires Accounted(items, w, lost) && forall i :: 0 <= i < |more| ==> more[i].Bare?
    ensures Accounted(items + more, w, lost)
  {
    CountNone(more);
    CountConcat(items, more);
    hide Count;
    if w.phase >= 2 {
      BareAscend(more, w.base);
      hide Ascending;
      var first :| Ascending(items, first, w.base) && w.base - first == Count(items) + lost;
      AscendingConcat(items, more, first, w.base, w.base);
    }
  }

  lemma InsertAccounted(items: seq<Item>, w: Window, lost: int, seqn: Seq16, buf: Buffer)
    requires Sound(w) && Orderly(w, seqn) && Accounted(items, w, lost)
    ensures var o := Insert(w, seqn, buf); Sound(o.w) && Accounted(items + Items(o.delivered), o.w, lost + o.lost)
  {
    var o := Insert(w, seqn, buf);
    InsertSound(w, seqn, buf);
    CountItems(o.delivered);
    CountConcat(items, Items(o.delivered));
    if w.phase == 2 {
      InsertAdvances(w, seqn, buf);
      EmittedIncreasing(Stored(w, Unwrap(w, seqn), buf), w.base, o.w.base);
      ItemsAscend(o.delivered, w.base, o.w.base);
      hide Insert, Sound, Orderly, Ascending, Increasing, Emitted, Stored;
      var first :| Ascending(items, first, w.base) && w.base - first == Count(items) + lost;
      AscendingConcat(items, Items(o.delivered), first, w.base, o.w.base);
    } else if w.phase == 1 {
      StartInOrder(w, seqn, buf);
      hide Insert, Sound, Orderly, Increasing;
      if o.w.phase == 2 {
        var first := o.delivered[0].number;
        ItemsAscend(o.delivered, first, o.w.base);
        BareAscend(items, first);
        hide Ascending;
        AscendingConcat(items, Items(o.delivered), first, first, o.w.base);
      } else {
        assert items + Items(o.delivered) == items;
      }
    } else {
      assert items + Items(o.delivered) == items;
    }
  }

  lemma NothingYetIsSound(w: Window, p: Packet)
    requires Sound(w) && Tame(w, p)
    ensures Sound(Handled(w, p).w)
  {
    if p.Media? {
      InsertSound(w, p.seqn, p.payload);
    }
  }

  /** The same account holds against a window that stands at the same number, and against any when nothing numbered came
    * out. */
  lemma AccountedElsewhere(items: seq<Item>, w: Window, other: Window, lost: int)
    requires Accounted(items, w, lost) && Follows(w, other)
    ensures Accounted(items, other, lost)
  {
    if w.phase < 2 {
      BareAscend(items, other.base);
    }
  }

  /** The second window continues where the first one stands. */
  predicate Follows(w: Window, other: Window) {
    w.phase < 2 || (other.phase == 2 && w.base == other.base)
  }

  lemma InsertNext(w: Window, b: Buffer)
    requires ValidSize(w.size) && w.phase == 2 && w.count == 0 && w.base !in w.held
    ensures Insert(w, w.base % 65536, b) == Outcome(w.(base := w.base + 1), [Delivery(w.base, b)], 0)
  {
    assert Unwrap(w, w.base % 65536) == w.base;
    hide Flush, ForceFlush, Collect, SlotTaken, Slot, Diff, Unwrap;
  }

  lemma NothingYet(w: Window)
    ensures Accounted([], w, 0)
  {
    assert Ascending([], w.base, w.base);
  }

  datatype Place = Place(w: Window, line: Line)

  /** Where a subscriber stands after one packet of its own. */
  ghost function Follow(at: Place, p: Packet): Place
    requires ValidSize(at.w.size)
  {
    var e := Handled(at.w, p);
    Place(e.w, at.line.(trace := at.line.trace + e.items, lost := at.line.lost + e.lost,
                        clean := at.line.clean && Tame(at.w, p)))
  }

  lemma FollowIdle(at: Place, p: Packet)
    requires ValidSize(at.w.size) && (p.Malformed? || p.Parity?)
    ensures Follow(at, p) == at
  {
    assert at.line.trace + [] == at.line.trace;
  }

  ghost function FollowAll(at: Place, ps: seq<Packet>): Place
    requires ValidSize(at.w.size)
    ensures FollowAll(at, ps).w.size == at.w.size
    decreases |ps|
  {
    if ps == [] then at
    else
      HandledSize(FollowAll(at, ps[..|ps| - 1]).w, ps[|ps| - 1]);
      Follow(FollowAll(at, ps[..|ps| - 1]), ps[|ps| - 1])
  }

  lemma HandledSize(w: Window, p: Packet)
    requires ValidSize(w.size)
    ensures Handled(w, p).w.size == w.size
  {
    if p.Media? {
      InsertSize(w, p.seqn, p.payload);
    }
  }

  lemma FollowAllOne(at: Place, ps: seq<Packet>, p: Packet)
    requires ValidSize(at.w.size)
    ensures FollowAll(at, ps + [p]) == Follow(FollowAll(at, ps), p)
  {
    assert (ps + [p])[..|ps|] == ps;
  }

  /** A window and a line that account for each other. */
  ghost predicate Straight(w: Window, line: Line) {
    ValidSize(w.size) && (line.clean ==> Sound(w) && Accounted(line.trace, w, line.lost))
  }

  lemma FollowStraight(at: Place, p: Packet)
    requires Straight(at.w, at.line)
    ensures Straight(Follow(at, p).w, Follow(at, p).line)
  {
    HandledSize(at.w, p);
    if at.line.clean && Tame(at.w, p) {
      HandledAccounted(at.line.trace, at.w, at.line.lost, p);
    }
  }

  // ----- following the shared output -----

  /** All that a subscriber was handed: what came before it followed the shared output, and the log from there on. */
  ghost function Story(line: Line, log: seq<Item>): seq<Item>
    requires line.since <= |log|
  {
    line.trace + log[line.since..]
  }

  lemma StoryGrows(line: Line, log: seq<Item>, more: seq<Item>)
    requires line.since <= |log|
    ensures Story(line, log + more) == Story(line, log) + more
  {
    assert (log + more)[line.since..] == log[line.since..] + more;
  }

  /** What was sent, followed by what is pending, is the payloads of the story. */
  ghost predicate UpToDate(line: Line, out: seq<Byte>, log: seq<Item>, pending: seq<Byte>) {
    line.since <= |log| && out + pending == line.base + Payloads(Story(line, log))
  }

  lemma StillUpToDate(line: Line, out: seq<Byte>, log: seq<Item>, pending: seq<Byte>, item: Item)
    requires UpToDate(line, out, log, pending)
    ensures UpToDate(line, out, log + [item], pending + item.Bytes())
  {
    hide Story, Payloads, Item.Bytes;
    StoryGrows(line, log, [item]);
    PayloadsOne(Story(line, log), item);
    assert out + (pending + item.Bytes()) == out + pending + item.Bytes();
    var paid := Payloads(Story(line, log));
    assert line.base + (paid + item.Bytes()) == line.base + paid + item.Bytes();
  }

  lemma Sent(line: Line, out: seq<Byte>, log: seq<Item>, bytes: seq<Byte>)
    requires UpToDate(line, out, log, bytes)
    ensures UpToDate(line, out + bytes, log, [])
  {
    assert out + bytes + [] == out + bytes;
  }

  /** The story is accounted for against the shared window. */
  ghost predicate InLine(line: Line, log: seq<Item>, w: Window, lost: nat) {
    line.since <= |log| && Accounted(Story(line, log), w, line.lost + lost)
  }

  /** What the shared window does with a packet keeps every story accounted for. */
  lemma StillInLine(line: Line, log: seq<Item>, w: Window, lost: nat, p: Packet)
    requires InLine(line, log, w, lost) && Sound(w) && Tame(w, p)
    ensures var e := Handled(w, p); InLine(line, log + e.items, e.w, lost + e.lost)
  {
    StoryGrows(line, log, Handled(w, p).items);
    HandledAccounted(Story(line, log), w, line.lost + lost, p);
    hide Accounted, Sound, Tame, Handled, Story;
  }

  // ----- a subscriber and its source as values -----

  /** The state of fast channel change, as far as the packets of the group are concerned. */
  datatype Fcc = NoFcc | Requested | Active | OtherFcc

  /** What a source is for its subscribers: the shared window, what was appended, the numbers given up, whether the
    * numbers collected were near each other, whether there is shared output, and the kind of the last packet that went
    * there. */
  datatype Group = Group(w: Window, log: seq<Item>, lost: nat, orderly: bool, shared: bool, packetType: nat)

  /** What a subscriber is: where it stands, whether it has failed, what waits for the end of unicast, whether parity is
    * in use, and whether it follows the shared output. */
  datatype Member = Member(at: Place, failed: bool, waiting: seq<Packet>, fec: bool, batched: bool)

  /** What does not change about a subscriber while packets arrive. */
  datatype Who = Who(fcc: Fcc, fecInitialized: bool, closing: bool, snapshot: bool)

  /** What can be had for a subscriber: whether its unicast server can be told to stop, a window, and views of what it
    * holds. */
  datatype Chance = Chance(stops: bool, window: bool, copy: bool)

  /** Bare payloads that are no transport stream, parity and malformed packets do not go to the shared output. */
  predicate Shares(p: Packet) {
    p.Media? || (p.Plain? && p.ts)
  }

  /** A packet at the source; the first parity packet ends the shared output. */
  ghost function GroupNext(g: Group, p: Packet): Group
    requires ValidSize(g.w.size)
  {
    if !g.shared then g
    else if p.Parity? then g.(w := New(g.w.size), orderly := true, shared := false)
    else if !Shares(p) then g
    else
      var e := Handled(g.w, p);
      Group(e.w, g.log + e.items, g.lost + e.lost, g.orderly && Tame(g.w, p), true, if p.Media? then 1 else 0)
  }

  /** One packet of a subscriber's own. With parity in use media packets are handled in another way, and nothing is
    * claimed. */
  ghost function TakeIn(mb: Member, fecInitialized: bool, p: Packet): Member
    requires ValidSize(mb.at.w.size)
  {
    if p.Malformed? || p.Parity? then mb.(fec := mb.fec || (fecInitialized && p == Parity(true)))
    else if mb.fec && p.Media? then mb.(at := mb.at.(line := mb.at.line.(clean := false)))
    else mb.(at := Follow(mb.at, p))
  }

  ghost function TakeInAll(mb: Member, fecInitialized: bool, ps: seq<Packet>): (next: Member)
    requires ValidSize(mb.at.w.size)
    ensures next.at.w.size == mb.at.w.size && next.failed == mb.failed && next.waiting == mb.waiting &&
      next.batched == mb.batched
    ensures mb.fec ==> next.fec
    decreases |ps|
  {
    if ps == [] then mb
    else
      var before := TakeInAll(mb, fecInitialized, ps[..|ps| - 1]);
      HandledSize(before.at.w, ps[|ps| - 1]);
      TakeIn(before, fecInitialized, ps[|ps| - 1])
  }

  lemma TakeInOne(mb: Member, fecInitialized: bool, ps: seq<Packet>, p: Packet)
    requires ValidSize(mb.at.w.size)
    ensures TakeInAll(mb, fecInitialized, ps + [p]) == TakeIn(TakeInAll(mb, fecInitialized, ps), fecInitialized, p)
  {
    assert (ps + [p])[..|ps|] == ps;
  }

  lemma NothingTaken(mb: Member, fecInitialized: bool)
    requires ValidSize(mb.at.w.size)
    ensures TakeInAll(mb, fecInitialized, []) == mb
  {
  }

  lemma FecStays(mb: Member, fecInitialized: bool, p: Packet)
    requires ValidSize(mb.at.w.size)
    ensures mb.fec ==> TakeIn(mb, fecInitialized, p).fec
  {
  }

  /** Parity comes into use with the first valid parity packet, for a subscriber that is ready for it, and stays in
    * use. */
  lemma {:induction false} ParityInUse(mb: Member, fecInitialized: bool, ps: seq<Packet>)
    requires ValidSize(mb.at.w.size)
    ensures TakeInAll(mb, fecInitialized, ps).fec <==> mb.fec || (fecInitialized && Parity(true) in ps)
    decreases |ps|
  {
    hide Follow;
    if ps != [] {
      var n := |ps| - 1;
      ParityInUse(mb, fecInitialized, ps[..n]);
      assert ps == ps[..n] + [ps[n]];
    }
  }

  ghost predicate NoMedia(ps: seq<Packet>) {
    forall i :: 0 <= i < |ps| ==> !ps[i].Media?
  }

  /** As long as parity is not in use, the window of a subscriber says what it is handed. */
  lemma {:induction false} TakeInFollows(mb: Member, fecInitialized: bool, ps: seq<Packet>)
    requires ValidSize(mb.at.w.size) && !TakeInAll(mb, fecInitialized, ps).fec
    ensures TakeInAll(mb, fecInitialized, ps).at == FollowAll(mb.at, ps)
    decreases |ps|
  {
    if ps != [] {
      var n := |ps| - 1;
      TakeInFollows(mb, fecInitialized, ps[..n]);
      var before := TakeInAll(mb, fecInitialized, ps[..n]);
      if ps[n].Malformed? || ps[n].Parity? {
        FollowIdle(before.at, ps[n]);
      }
    }
  }

  /** A packet arrives for a subscriber alone. */
  ghost function Reception(mb: Member, who: Who, p: Packet, view: bool, stops: bool): (next: Member)
    requires ValidSize(mb.at.w.size)
    ensures next.at.w.size == mb.at.w.size && next.batched == mb.batched && (mb.fec ==> next.fec)
  {
    if mb.failed || who.closing || !view then mb
    else match who.fcc
      case NoFcc => TakeInAll(mb, who.fecInitialized, [p])
      case Active => TakeInAll(mb.(waiting := []), who.fecInitialized, mb.waiting + [p])
      case Requested =>
        if p == Malformed then mb else if stops then mb.(waiting := mb.waiting + [p]) else mb.(failed := true)
      case OtherFcc => mb
  }

  /** The line of a subscriber that follows the shared output from here on. */
  ghost function JoinedLine(line: Line, w: Window, g: Group): Line {
    line.(since := |g.log|, lost := line.lost - g.lost, clean := line.clean && Follows(w, g.w))
  }

  /** Whether a subscriber may follow the shared output from here on. */
  ghost predicate MayJoin(mb: Member, who: Who, g: Group) {
    !mb.failed && !who.closing && !who.snapshot && !mb.fec &&
    (who.fcc == NoFcc || (who.fcc == Active && mb.waiting == [])) &&
    (g.packetType == 0 || Handoff.AtBoundary(mb.at.w, g.w))
  }

  /** A subscriber that followed the shared output continues by itself, in a copy of the shared window if one can be
    * had. */
  ghost function Landing(mb: Member, g: Group, c: Chance): Member
    requires mb.at.line.since <= |g.log|
  {
    var line, ok := mb.at.line, c.window && c.copy;
    mb.(batched := false, failed := mb.failed || !ok,
        at := Place(if c.window then g.w else New(32),
                    line.(trace := Story(line, g.log), lost := line.lost + g.lost,
                          clean := line.clean && ok && g.orderly)))
  }

  /** A subscriber came in somewhere in the log, or has a window of its own. */
  ghost predicate Fits(mb: Member, g: Group) {
    ValidSize(g.w.size) && if mb.batched then mb.at.line.since <= |g.log| else ValidSize(mb.at.w.size)
  }

  /** What a packet at the source means for a subscriber that can have every view it needs. */
  ghost function MemberNext(mb: Member, who: Who, g: Group, p: Packet, c: Chance): Member
    requires Fits(mb, g)
  {
    if g.shared && p.Parity? then
      Reception(if mb.batched then Landing(mb, g, c) else mb, who, p, true, c.stops)
    else if mb.batched then mb
    else
      var next, after := Reception(mb, who, p, true, c.stops), GroupNext(g, p);
      if g.shared && Shares(p) && MayJoin(next, who, after) then
        next.(batched := true, at := next.at.(line := JoinedLine(next.at.line, next.at.w, after)))
      else next
  }

  lemma MemberFits(mb: Member, who: Who, g: Group, p: Packet, c: Chance)
    requires Fits(mb, g)
    ensures Fits(MemberNext(mb, who, g, p, c), GroupNext(g, p))
  {
    HandledSize(g.w, p);
    hide Handled, Tame, TakeInAll, Story;
  }

  /** Parity stays in use, and a subscriber that works has not failed while it follows the shared output. */
  lemma NextKeeps(mb: Member, who: Who, g: Group, p: Packet, c: Chance)
    requires Fits(mb, g)
    ensures var next := MemberNext(mb, who, g, p, c);
      (mb.fec ==> next.fec) && (next.batched && (mb.batched ==> !mb.failed) ==> !next.failed)
  {
    hide TakeInAll, Story, GroupNext;
  }

  // ----- whole runs -----

  /** What a run of packets does to a window, and what comes out. */
  ghost function HandledAll(w: Window, ps: seq<Packet>): (e: Effect)
    requires ValidSize(w.size)
    ensures e.w.size == w.size
    decreases |ps|
  {
    if ps == [] then Effect(w, [], 0)
    else
      var before := HandledAll(w, ps[..|ps| - 1]);
      var e := Handled(before.w, ps[|ps| - 1]);
      HandledSize(before.w, ps[|ps| - 1]);
      Effect(e.w, before.items + e.items, before.lost + e.lost)
  }

  /** Every packet of a run is near those collected when it comes. */
  ghost predicate TameAll(w: Window, ps: seq<Packet>)
    requires ValidSize(w.size)
    decreases |ps|
  {
    ps == [] || (TameAll(w, ps[..|ps| - 1]) && Tame(HandledAll(w, ps[..|ps| - 1]).w, ps[|ps| - 1]))
  }

  /** A window of one's own does what the packets do to it, and the line records it. */
  lemma {:induction false} FollowAllIs(at: Place, ps: seq<Packet>)
    requires ValidSize(at.w.size)
    ensures var e := HandledAll(at.w, ps);
      FollowAll(at, ps) == Place(e.w, at.line.(trace := at.line.trace + e.items, lost := at.line.lost + e.lost,
                                               clean := at.line.clean && TameAll(at.w, ps)))
    decreases |ps|
  {
    hide Handled, Tame;
    if ps == [] {
      assert at.line.trace + [] == at.line.trace;
    } else {
      FollowAllIs(at, ps[..|ps| - 1]);
    }
  }

  ghost function GroupRun(g: Group, ps: seq<Packet>): (next: Group)
    requires ValidSize(g.w.size)
    ensures next.w.size == g.w.size && |g.log| <= |next.log|
    decreases |ps|
  {
    if ps == [] then g
    else
      var before := GroupRun(g, ps[..|ps| - 1]);
      HandledSize(before.w, ps[|ps| - 1]);
      GroupNext(before, ps[|ps| - 1])
  }

  ghost predicate NoParity(ps: seq<Packet>) {
    forall i :: 0 <= i < |ps| ==> !ps[i].Parity?
  }

  /** Until parity comes, the shared window does what the packets do to it, and everything that comes out is
    * appended. */
  lemma {:induction false} GroupRunIs(g: Group, ps: seq<Packet>)
    requires ValidSize(g.w.size) && g.shared && NoParity(ps)
    ensures var e, end := HandledAll(g.w, ps), GroupRun(g, ps);
      end.w == e.w && end.log == g.log + e.items && end.lost == g.lost + e.lost && end.shared &&
      end.orderly == (g.orderly && TameAll(g.w, ps))
    decreases |ps|
  {
    hide Tame, Insert;
    if ps == [] {
      assert g.log + [] == g.log;
    } else {
      var n := |ps| - 1;
      GroupRunIs(g, ps[..n]);
      GroupStep(g, GroupRun(g, ps[..n]), HandledAll(g.w, ps[..n]), ps[n]);
      hide Handled, GroupNext;
    }
  }

  lemma GroupStep(g: Group, before: Group, e: Effect, p: Packet)
    requires ValidSize(before.w.size) && before.shared && !p.Parity? && before.log == g.log + e.items
    ensures var after, more := GroupNext(before, p), Handled(before.w, p);
      after.w == more.w && after.log == g.log + (e.items + more.items) && after.lost == before.lost + more.lost &&
      after.shared &&
      after.orderly == (before.orderly && Tame(before.w, p))
  {
    hide Insert, Orderly;
    assert g.log + (e.items + Handled(before.w, p).items) == g.log + e.items + Handled(before.w, p).items;
    assert before.log + [] == before.log;
  }

  /** A subscriber over a run; `cs` says for each packet what can be had. */
  ghost function MemberRun(mb: Member, who: Who, g: Group, ps: seq<Packet>, cs: nat -> Chance): (end: Member)
    requires Fits(mb, g)
    ensures Fits(end, GroupRun(g, ps))
    decreases |ps|
  {
    if ps == [] then mb
    else
      var n := |ps| - 1;
      MemberFits(MemberRun(mb, who, g, ps[..n], cs), who, GroupRun(g, ps[..n]), ps[n], cs(n));
      MemberNext(MemberRun(mb, who, g, ps[..n], cs), who, GroupRun(g, ps[..n]), ps[n], cs(n))
  }

  /** Some subscribers never follow the shared output: one that is being closed, makes a snapshot, has failed or uses
    * parity, and one whose fast channel change has not come to its end. */
  ghost predicate Aside(mb: Member, who: Who) {
    !mb.batched && (who.closing || who.snapshot || mb.failed || mb.fec || who.fcc == Requested || who.fcc == OtherFcc)
  }

  lemma {:induction false} StaysAside(mb: Member, who: Who, g: Group, ps: seq<Packet>, cs: nat -> Chance)
    requires Fits(mb, g) && Aside(mb, who)
    ensures Aside(MemberRun(mb, who, g, ps, cs), who)
    decreases |ps|
  {
    hide TakeInAll, GroupNext, GroupRun;
    if ps != [] {
      StaysAside(mb, who, g, ps[..|ps| - 1], cs);
    }
  }

  /** The packets that make sense, in order. */
  ghost function Sensible(ps: seq<Packet>): seq<Packet> {
    if ps == [] then []
    else Sensible(ps[..|ps| - 1]) + if ps[|ps| - 1] == Malformed then [] else [ps[|ps| - 1]]
  }

  /** Until unicast has ended the packets of the group wait, all that make sense and in order; a subscriber fails
    * exactly when one of them comes while the server cannot be told to stop. */
  lemma {:induction false} WaitsOrFails(mb: Member, who: Who, g: Group, ps: seq<Packet>, cs: nat -> Chance)
    requires Fits(mb, g) && !mb.batched && !mb.failed && !who.closing && who.fcc == Requested
    ensures var end := MemberRun(mb, who, g, ps, cs);
      !end.batched && end.at == mb.at && end.fec == mb.fec &&
      (end.failed <==> exists k :: 0 <= k < |ps| && ps[k] != Malformed && !cs(k).stops) &&
      (!end.failed ==> end.waiting == mb.waiting + Sensible(ps))
    decreases |ps|
  {
    hide GroupNext, GroupRun, MemberNext;
    if ps == [] {
      assert mb.waiting + [] == mb.waiting;
    } else {
      var n := |ps| - 1;
      WaitsOrFails(mb, who, g, ps[..n], cs);
      OneWaits(MemberRun(mb, who, g, ps[..n], cs), who, GroupRun(g, ps[..n]), ps[n], cs(n));
      assert forall k :: 0 <= k < n ==> ps[..n][k] == ps[k];
    }
  }

  lemma OneWaits(mb: Member, who: Who, g: Group, p: Packet, c: Chance)
    requires Fits(mb, g) && !mb.batched && !who.closing && who.fcc == Requested
    ensures MemberNext(mb, who, g, p, c) ==
      if mb.failed || p == Malformed then mb
      else if c.stops then mb.(waiting := mb.waiting + [p])
      else mb.(failed := true)
  {
    hide TakeInAll, GroupNext;
  }

  /** What has gone through a subscriber's own window after some packets: those that waited come first. */
  ghost function Own(mb: Member, who: Who, ps: seq<Packet>): seq<Packet> {
    if who.fcc == Active && ps != [] then mb.waiting + ps else ps
  }

  /** A subscriber by itself that listens: it works, and has no unicast to wait for. */
  ghost predicate Listens(mb: Member, who: Who) {
    !mb.batched && !mb.failed && !mb.fec && !who.closing && (who.fcc == NoFcc || who.fcc == Active) &&
    NoParity(mb.waiting)
  }

  /** After so many packets it may join the shared output: the last one went there, and either it was bare, or both
    * windows stand at the same number and the own one looks empty. */
  ghost predicate MayAt(mb: Member, who: Who, g: Group, ps: seq<Packet>, k: nat)
    requires ValidSize(mb.at.w.size) && ValidSize(g.w.size)
  {
    0 < k <= |ps| && Shares(ps[k - 1]) && !who.snapshot &&
    var at, group := FollowAll(mb.at, Own(mb, who, ps[..k])), GroupRun(g, ps[..k]);
    group.packetType == 0 || Handoff.AtBoundary(at.w, group.w)
  }

  /** Where it stands when it joins after so many packets. */
  ghost function Entered(mb: Member, who: Who, g: Group, ps: seq<Packet>, k: nat): Place
    requires ValidSize(mb.at.w.size) && ValidSize(g.w.size) && k <= |ps|
  {
    var at, group := FollowAll(mb.at, Own(mb, who, ps[..k])), GroupRun(g, ps[..k]);
    Place(at.w, JoinedLine(at.line, at.w, group))
  }

  ghost predicate NotBefore(mb: Member, who: Who, g: Group, ps: seq<Packet>, k: nat)
    requires ValidSize(mb.at.w.size) && ValidSize(g.w.size)
  {
    forall j: nat :: j < k ==> !MayAt(mb, who, g, ps, j)
  }

  /** It joined after so many packets, and could not before. */
  ghost predicate JoinedAt(mb: Member, who: Who, g: Group, ps: seq<Packet>, k: nat, end: Member)
    requires ValidSize(mb.at.w.size) && ValidSize(g.w.size)
  {
    k <= |ps| && MayAt(mb, who, g, ps, k) && NotBefore(mb, who, g, ps, k) && end.at == Entered(mb, who, g, ps, k)
  }

  /** Later packets do not change what was possible before. */
  lemma MayPrefix(mb: Member, who: Who, g: Group, ps: seq<Packet>, n: nat, k: nat)
    requires ValidSize(mb.at.w.size) && ValidSize(g.w.size) && k <= n <= |ps|
    ensures MayAt(mb, who, g, ps[..n], k) == MayAt(mb, who, g, ps, k) &&
      Entered(mb, who, g, ps[..n], k) == Entered(mb, who, g, ps, k)
  {
    hide FollowAll, GroupRun, Own;
    assert ps[..n][..k] == ps[..k];
  }

  lemma NotBeforePrefix(mb: Member, who: Who, g: Group, ps: seq<Packet>, n: nat, k: nat)
    requires ValidSize(mb.at.w.size) && ValidSize(g.w.size) && k <= n + 1 && n <= |ps|
    ensures NotBefore(mb, who, g, ps[..n], k) ==> NotBefore(mb, who, g, ps, k)
  {
    hide MayAt;
    forall j: nat | j < k ensures MayAt(mb, who, g, ps[..n], j) == MayAt(mb, who, g, ps, j) {
      MayPrefix(mb, who, g, ps, n, j);
    }
  }

  lemma NotBeforeNext(mb: Member, who: Who, g: Group, ps: seq<Packet>, k: nat)
    requires ValidSize(mb.at.w.size) && ValidSize(g.w.size) && NotBefore(mb, who, g, ps, k) && !MayAt(mb, who, g, ps, k)
    ensures NotBefore(mb, who, g, ps, k + 1)
  {
    hide MayAt;
  }

  lemma {:induction false} NoParityNoFec(mb: Member, fecInitialized: bool, ps: seq<Packet>)
    requires ValidSize(mb.at.w.size) && NoParity(ps) && !mb.fec
    ensures !TakeInAll(mb, fecInitialized, ps).fec
    decreases |ps|
  {
    if ps != [] {
      NoParityNoFec(mb, fecInitialized, ps[..|ps| - 1]);
    }
  }

  /** What a subscriber by itself makes of one packet more. */
  lemma ReceptionAlone(mb: Member, who: Who, ps: seq<Packet>, before: Member, stops: bool)
    requires ValidSize(mb.at.w.size) && Listens(mb, who) && NoParity(ps) && ps != [] && Listens(before, who)
    requires before.at == FollowAll(mb.at, Own(mb, who, ps[..|ps| - 1]))
    requires before.waiting == if who.fcc == Active && |ps| > 1 then [] else mb.waiting
    ensures var next := Reception(before, who, ps[|ps| - 1], true, stops);
      next.at == FollowAll(mb.at, Own(mb, who, ps)) && !next.fec && !next.failed && !next.batched &&
      next.waiting == if who.fcc == Active then [] else mb.waiting
  {
    hide TakeInAll, FollowAll, Follow, Own;
    var due := if who.fcc == Active then before.waiting + [ps[|ps| - 1]] else [ps[|ps| - 1]];
    var from := if who.fcc == Active then before.(waiting := []) else before;
    DueFollows(mb, who, ps, before, due);
    LastNotParity(ps);
    NoParityNoFec(from, who.fecInitialized, due);
    TakeInFollows(from, who.fecInitialized, due);
  }

  /** One packet more in the own window, however it comes to it. */
  lemma DueFollows(mb: Member, who: Who, ps: seq<Packet>, before: Member, due: seq<Packet>)
    requires ValidSize(mb.at.w.size) && ps != [] && before.at == FollowAll(mb.at, Own(mb, who, ps[..|ps| - 1]))
    requires before.waiting == if who.fcc == Active && |ps| > 1 then [] else mb.waiting
    requires due == (if who.fcc == Active then before.waiting else []) + [ps[|ps| - 1]]
    ensures ValidSize(before.at.w.size) && FollowAll(before.at, due) == FollowAll(mb.at, Own(mb, who, ps))
  {
    hide FollowAll, Follow;
    var front, p := ps[..|ps| - 1], ps[|ps| - 1];
    assert ps == front + [p];
    if front == [] {
      NothingFollowed(mb.at);
      assert due == Own(mb, who, ps);
    } else {
      assert due == [] + [p] && Own(mb, who, front) + [p] == Own(mb, who, ps);
      FollowAllOne(mb.at, Own(mb, who, front), p);
      FollowAllOne(before.at, [], p);
      NothingFollowed(before.at);
    }
  }

  lemma NothingFollowed(at: Place)
    requires ValidSize(at.w.size)
    ensures FollowAll(at, []) == at
  {
  }

  lemma OneMore(g: Group, ps: seq<Packet>)
    requires ValidSize(g.w.size) && ps != []
    ensures GroupRun(g, ps) == GroupNext(GroupRun(g, ps[..|ps| - 1]), ps[|ps| - 1])
  {
  }

  lemma LastNotParity(ps: seq<Packet>)
    requires NoParity(ps) && ps != []
    ensures !ps[|ps| - 1].Parity?
  {
  }

  lemma AloneNext(mb: Member, who: Who, g: Group, ps: seq<Packet>, before: Member, c: Chance)
    requires ValidSize(mb.at.w.size) && ValidSize(g.w.size) && Listens(mb, who) && NoParity(ps) && ps != [] &&
      Listens(before, who)
    requires before.at == FollowAll(mb.at, Own(mb, who, ps[..|ps| - 1])) && GroupRun(g, ps[..|ps| - 1]).shared
    requires before.waiting == if who.fcc == Active && |ps| > 1 then [] else mb.waiting
    ensures var end := MemberNext(before, who, GroupRun(g, ps[..|ps| - 1]), ps[|ps| - 1], c);
      !end.failed && !end.fec &&
      (end.batched <==> MayAt(mb, who, g, ps, |ps|)) &&
      end.waiting == (if who.fcc == Active then [] else mb.waiting) &&
      if end.batched then end.at == Entered(mb, who, g, ps, |ps|) else end.at == FollowAll(mb.at, Own(mb, who, ps))
  {
    hide FollowAll, Reception, Handled, Own, GroupNext, GroupRun, NoParity;
    ReceptionAlone(mb, who, ps, before, c.stops);
    OneMore(g, ps);
    assert ps[..|ps|] == ps && !ps[|ps| - 1].Parity? by { LastNotParity(ps); }
  }

  /** What becomes of a subscriber that listens: until it joins the shared output it follows the packets in its own
    * window; as soon as it may, it joins, and from then on its line stays. */
  ghost predicate RanAlone(mb: Member, who: Who, g: Group, ps: seq<Packet>, end: Member)
    requires ValidSize(mb.at.w.size) && ValidSize(g.w.size)
  {
    !end.failed && !end.fec && end.waiting == (if who.fcc == Active && ps != [] then [] else mb.waiting) &&
    if end.batched then exists k: nat :: JoinedAt(mb, who, g, ps, k, end)
    else NotBefore(mb, who, g, ps, |ps| + 1) && end.at == FollowAll(mb.at, Own(mb, who, ps))
  }

  lemma StaysJoined(mb: Member, who: Who, g: Group, ps: seq<Packet>, end: Member)
    requires ValidSize(mb.at.w.size) && ValidSize(g.w.size) && ps != [] && end.batched &&
      RanAlone(mb, who, g, ps[..|ps| - 1], end)
    ensures RanAlone(mb, who, g, ps, end)
  {
    hide MayAt, NotBefore, FollowAll, Own, GroupRun, Entered;
    var n := |ps| - 1;
    var k: nat :| JoinedAt(mb, who, g, ps[..n], k, end);
    NotAtStart(mb, who, g, ps[..n]);
    MayPrefix(mb, who, g, ps, n, k);
    NotBeforePrefix(mb, who, g, ps, n, k);
    assert JoinedAt(mb, who, g, ps, k, end);
  }

  lemma NotAtStart(mb: Member, who: Who, g: Group, ps: seq<Packet>)
    requires ValidSize(mb.at.w.size) && ValidSize(g.w.size)
    ensures !MayAt(mb, who, g, ps, 0)
  {
  }

  lemma StaysAlone(mb: Member, who: Who, g: Group, ps: seq<Packet>, before: Member, c: Chance)
    requires ValidSize(mb.at.w.size) && ValidSize(g.w.size) && Listens(mb, who) && NoParity(ps) && ps != [] &&
      !before.batched
    requires RanAlone(mb, who, g, ps[..|ps| - 1], before) && GroupRun(g, ps[..|ps| - 1]).shared && Listens(before, who)
    ensures RanAlone(mb, who, g, ps, MemberNext(before, who, GroupRun(g, ps[..|ps| - 1]), ps[|ps| - 1], c))
  {
    hide *;
    var n := |ps| - 1;
    AloneSoFar(mb, who, g, ps, before);
    AloneNext(mb, who, g, ps, before, c);
    NotBeforePrefix(mb, who, g, ps, n, n + 1);
    ListensFits(before, who, GroupRun(g, ps[..n]));
    var end := MemberNext(before, who, GroupRun(g, ps[..n]), ps[n], c);
    if end.batched {
      JoinsNow(mb, who, g, ps, end);
    } else {
      NotBeforeNext(mb, who, g, ps, n + 1);
      AloneNow(mb, who, g, ps, end);
    }
  }

  lemma AloneSoFar(mb: Member, who: Who, g: Group, ps: seq<Packet>, before: Member)
    requires ValidSize(mb.at.w.size) && ValidSize(g.w.size) && ps != [] && !before.batched &&
      RanAlone(mb, who, g, ps[..|ps| - 1], before)
    ensures before.at == FollowAll(mb.at, Own(mb, who, ps[..|ps| - 1])) && NotBefore(mb, who, g, ps[..|ps| - 1], |ps|)
    ensures before.waiting == (if who.fcc == Active && |ps| > 1 then [] else mb.waiting) && ValidSize(before.at.w.size)
  {
    hide NotBefore, Own, FollowAll;
  }

  lemma ListensFits(mb: Member, who: Who, g: Group)
    requires ValidSize(mb.at.w.size) && ValidSize(g.w.size) && Listens(mb, who)
    ensures Fits(mb, g)
  {
  }

  lemma JoinsNow(mb: Member, who: Who, g: Group, ps: seq<Packet>, end: Member)
    requires ValidSize(mb.at.w.size) && ValidSize(g.w.size) && ps != [] && end.batched && !end.failed && !end.fec &&
      MayAt(mb, who, g, ps, |ps|)
    requires NotBefore(mb, who, g, ps, |ps|) && end.at == Entered(mb, who, g, ps, |ps|)
    requires end.waiting == if who.fcc == Active then [] else mb.waiting
    ensures RanAlone(mb, who, g, ps, end)
  {
    hide MayAt, NotBefore, Entered;
    assert JoinedAt(mb, who, g, ps, |ps|, end);
  }

  lemma AloneNow(mb: Member, who: Who, g: Group, ps: seq<Packet>, end: Member)
    requires ValidSize(mb.at.w.size) && ValidSize(g.w.size) && ps != [] && !end.batched && !end.failed && !end.fec &&
      NotBefore(mb, who, g, ps, |ps| + 1)
    requires end.at == FollowAll(mb.at, Own(mb, who, ps)) && end.waiting == if who.fcc == Active then [] else mb.waiting
    ensures RanAlone(mb, who, g, ps, end)
  {
    hide NotBefore, Own, FollowAll;
  }

  lemma AloneStill(mb: Member, who: Who, g: Group, ps: seq<Packet>, end: Member)
    requires Fits(mb, g) && Listens(mb, who) && RanAlone(mb, who, g, ps, end) && !end.batched
    ensures Listens(end, who)
  {
  }

  lemma NothingYetAlone(mb: Member, who: Who, g: Group)
    requires Fits(mb, g) && Listens(mb, who)
    ensures RanAlone(mb, who, g, [], mb)
  {
  }

  lemma {:induction false} RunAlone(mb: Member, who: Who, g: Group, ps: seq<Packet>, cs: nat -> Chance)
    requires Fits(mb, g) && g.shared && Listens(mb, who) && NoParity(ps)
    ensures RanAlone(mb, who, g, ps, MemberRun(mb, who, g, ps, cs))
    decreases |ps|
  {
    hide RanAlone, MemberNext, GroupRun, NoParity;
    if ps == [] {
      NothingYetAlone(mb, who, g);
    } else {
      var n := |ps| - 1;
      FrontNoParity(ps);
      RunAlone(mb, who, g, ps[..n], cs);
      var before := MemberRun(mb, who, g, ps[..n], cs);
      GroupRunIs(g, ps[..n]);
      GroupRunIs(g, ps);
      if before.batched {
        JoinedStays(before, who, GroupRun(g, ps[..n]), ps[n], cs(n));
        StaysJoined(mb, who, g, ps, before);
      } else {
        AloneStill(mb, who, g, ps[..n], before);
        StaysAlone(mb, who, g, ps, before, cs(n));
      }
    }
  }

  lemma FrontNoParity(ps: seq<Packet>)
    requires NoParity(ps) && ps != []
    ensures NoParity(ps[..|ps| - 1]) && !ps[|ps| - 1].Parity?
  {
  }

  lemma JoinedStays(mb: Member, who: Who, g: Group, p: Packet, c: Chance)
    requires Fits(mb, g) && mb.batched && !p.Parity?
    ensures MemberNext(mb, who, g, p, c) == mb
  {
  }

  ghost predicate NoBare(ps: seq<Packet>) {
    forall i :: 0 <= i < |ps| ==> !(ps[i].Plain? && ps[i].ts)
  }

  /** At every moment of the run the own window and the shared one are less than half the number space apart. */
  ghost predicate Close(mb: Member, who: Who, g: Group, ps: seq<Packet>)
    requires ValidSize(mb.at.w.size) && ValidSize(g.w.size)
  {
    forall k: nat :: k <= |ps| ==> CloseAt(mb, who, g, ps, k)
  }

  ghost predicate CloseAt(mb: Member, who: Who, g: Group, ps: seq<Packet>, k: nat)
    requires ValidSize(mb.at.w.size) && ValidSize(g.w.size) && k <= |ps|
  {
    var own, shared := HandledAll(mb.at.w, Own(mb, who, ps[..k])).w, HandledAll(g.w, ps[..k]).w;
    own.phase == shared.phase == 2 ==> -32768 < own.base - shared.base < 32768
  }

  lemma {:induction false} TamePrefix(w: Window, ps: seq<Packet>, k: nat)
    requires ValidSize(w.size) && TameAll(w, ps) && k <= |ps|
    ensures TameAll(w, ps[..k])
    decreases |ps|
  {
    if k == |ps| {
      assert ps[..k] == ps;
    } else {
      TamePrefix(w, ps[..|ps| - 1], k);
      assert ps[..|ps| - 1][..k] == ps[..k];
    }
  }

  lemma NoParityPrefix(ps: seq<Packet>, k: nat)
    requires NoParity(ps) && k <= |ps|
    ensures NoParity(ps[..k])
  {
  }

  lemma OwnPrefix(mb: Member, who: Who, ps: seq<Packet>, k: nat)
    requires 0 < k <= |ps|
    ensures var n := |Own(mb, who, ps[..k])|; n <= |Own(mb, who, ps)| && Own(mb, who, ps[..k]) == Own(mb, who, ps)[..n]
  {
  }

  /** The kind of the last packet that went to the shared output. */
  lemma LastKind(g: Group, ps: seq<Packet>, k: nat)
    requires ValidSize(g.w.size) && g.shared && NoParity(ps) && 0 < k <= |ps| && ps[k - 1].Media?
    ensures GroupRun(g, ps[..k]).packetType == 1
  {
    hide HandledAll, Handled;
    var front := ps[..k][..k - 1];
    NoParityPrefix(ps, k);
    NoParityPrefix(ps[..k], k - 1);
    GroupRunIs(g, front);
  }

  /** Joining at a numbered packet is joining at the same number. */
  lemma JoinsInPlace(mb: Member, who: Who, g: Group, ps: seq<Packet>, k: nat)
    requires ValidSize(mb.at.w.size) && ValidSize(g.w.size) && g.shared && NoParity(ps) && NoBare(ps) && k <= |ps|
    requires MayAt(mb, who, g, ps, k) && CloseAt(mb, who, g, ps, k)
    ensures Follows(FollowAll(mb.at, Own(mb, who, ps[..k])).w, GroupRun(g, ps[..k]).w)
  {
    LastKind(g, ps, k);
    FollowAllIs(mb.at, Own(mb, who, ps[..k]));
    NoParityPrefix(ps, k);
    GroupRunIs(g, ps[..k]);
    hide HandledAll, FollowAll, GroupRun, Own, TameAll;
    var own, shared := HandledAll(mb.at.w, Own(mb, who, ps[..k])).w, HandledAll(g.w, ps[..k]).w;
    Handoff.SameNumber(own.base, shared.base);
  }

  /** A subscriber that listens stays accounted for over any run of numbered packets: each near those collected when it
    * comes, and the windows never half the number space apart. */
  lemma RunClean(mb: Member, who: Who, g: Group, ps: seq<Packet>, cs: nat -> Chance)
    requires Fits(mb, g) && g.shared && Listens(mb, who) && NoParity(ps) && NoBare(ps)
    requires mb.at.line.clean && TameAll(mb.at.w, Own(mb, who, ps)) && Close(mb, who, g, ps)
    ensures MemberRun(mb, who, g, ps, cs).at.line.clean
  {
    hide MemberRun, MemberNext, GroupRun, FollowAll, TameAll, Own, MayAt, NotBefore, NoParity, NoBare, Follows, CloseAt;
    RunAlone(mb, who, g, ps, cs);
    var end := MemberRun(mb, who, g, ps, cs);
    FollowAllIs(mb.at, Own(mb, who, ps));
    if end.batched {
      var k: nat :| JoinedAt(mb, who, g, ps, k, end);
      NotAtStart(mb, who, g, ps);
      OwnPrefix(mb, who, ps, k);
      TamePrefix(mb.at.w, Own(mb, who, ps), |Own(mb, who, ps[..k])|);
      FollowAllIs(mb.at, Own(mb, who, ps[..k]));
      JoinsInPlace(mb, who, g, ps, k);
    }
  }

  /** Numbers strictly increase. */
  ghost predicate Rising(items: seq<Item>) {
    forall i, j :: 0 <= i < j < |items| && items[i].Numbered? && items[j].Numbered? ==>
      items[i].delivery.number < items[j].delivery.number
  }

  // ----- packets in order -----

  /** Packets numbered one after the other. */
  ghost function Medias(from: int, packets: seq<Buffer>): seq<Packet> {
    seq(|packets|, i requires 0 <= i < |packets| => Media((from + i) % 65536, packets[i]))
  }

  ghost function Numbers(from: int, packets: seq<Buffer>): seq<Item> {
    seq(|packets|, i requires 0 <= i < |packets| => Numbered(Delivery(from + i, packets[i])))
  }

  /** The packet of a number. */
  ghost function PacketOf(from: int, packets: seq<Buffer>, n: int): Buffer
    requires from <= n < from + |packets|
  {
    packets[n - from]
  }

  ghost function Kept(from: int, packets: seq<Buffer>): map<int, Buffer> {
    map n: int | from <= n < from + |packets| :: n := PacketOf(from, packets, n)
  }

  /** Where a new window stands after packets in order. */
  ghost function Standing(size: nat, near: int, from: int, packets: seq<Buffer>): Window {
    if packets == [] then NewNear(size, near)
    else if |packets| < INIT_COLLECT then Window(size, 1, from, Kept(from, packets), |packets|)
    else Window(size, 2, from + |packets|, map[], 0)
  }

  lemma StandingNext(size: nat, near: int, from: int, packets: seq<Buffer>, b: Buffer)
    requires ValidSize(size) && -32768 <= from - near < 32768
    ensures var w, p := Standing(size, near, from, packets), Media((from + |packets|) % 65536, b);
      Tame(w, p) && Handled(w, p) == Effect(Standing(size, near, from, packets + [b]),
        if |packets| + 1 < INIT_COLLECT then [] else if |packets| + 1 == INIT_COLLECT then Numbers(from, packets + [b])
        else [Numbered(Delivery(from + |packets|, b))], 0)
  {
    hide Standing, Handled, Tame, Numbers;
    if packets == [] {
      FirstStands(size, near, from, b);
      assert [] + [b] == [b];
    } else if |packets| < INIT_COLLECT {
      CollectedStands(size, near, from, packets, b);
    } else {
      DeliveredStands(size, near, from, packets, b);
    }
  }

  lemma FirstStands(size: nat, near: int, from: int, b: Buffer)
    requires ValidSize(size) && -32768 <= from - near < 32768
    ensures var w, p := Standing(size, near, from, []), Media(from % 65536, b);
      w.size == size && Tame(w, p) && Handled(w, p) == Effect(Standing(size, near, from, [b]), [], 0)
  {
    assert Unwrap(NewNear(size, near), from % 65536) == from;
    assert Kept(from, [b]) == map[from := b];
    assert Items([]) == [];
  }

  lemma CollectedStands(size: nat, near: int, from: int, packets: seq<Buffer>, b: Buffer)
    requires ValidSize(size) && 0 < |packets| < INIT_COLLECT
    ensures var w, p := Standing(size, near, from, packets), Media((from + |packets|) % 65536, b);
      w.size == size && Tame(w, p) && Handled(w, p) ==
        Effect(Standing(size, near, from, packets + [b]), if |packets| + 1 < INIT_COLLECT then []
          else Numbers(from, packets + [b]), 0)
  {
    hide Flush, Collect, Unwrap, Diff, SlotTaken, Near, Kept;
    var n := |packets|;
    UnwrapsTo(Window(size, 1, from, Kept(from, packets), n), from + n);
    CollectsNext(size, from, packets, b);
    if n + 1 == INIT_COLLECT {
      FlushesKept(size, from, packets + [b], 0);
      assert (packets + [b])[0..] == packets + [b];
      assert Items(Deliveries(from, packets + [b], 0)) == Numbers(from, packets + [b]);
    }
    assert Items([]) == [];
  }

  lemma UnwrapsTo(w: Window, n: int)
    requires -32768 <= n - w.base < 32768
    ensures Unwrap(w, n % 65536) == n
  {
  }

  lemma DeliveredStands(size: nat, near: int, from: int, packets: seq<Buffer>, b: Buffer)
    requires ValidSize(size) && |packets| >= INIT_COLLECT
    ensures var w, p := Standing(size, near, from, packets), Media((from + |packets|) % 65536, b);
      w.size == size && Tame(w, p) &&
      Handled(w, p) == Effect(Standing(size, near, from, packets + [b]), [Numbered(Delivery(from + |packets|, b))], 0)
  {
    hide Handled, Tame;
    OneDelivered(size, from + |packets|, b);
  }

  lemma CollectsNext(size: nat, from: int, packets: seq<Buffer>, b: Buffer)
    requires ValidSize(size) && 0 < |packets| < INIT_COLLECT
    ensures var w, n := Window(size, 1, from, Kept(from, packets), |packets|), from + |packets|;
      Near(w, n) && Collect(w, n, b) == Window(size, 1, from, Kept(from, packets + [b]), |packets| + 1)
  {
    var w := Window(size, 1, from, Kept(from, packets), |packets|);
    assert !SlotTaken(w, from + |packets|);
    assert Kept(from, packets)[from + |packets| := b] == Kept(from, packets + [b]);
  }

  ghost function Deliveries(from: int, packets: seq<Buffer>, i: nat): seq<Delivery>
    requires i <= |packets|
  {
    seq(|packets| - i, j requires 0 <= j < |packets| - i => Delivery(from + i + j, packets[i + j]))
  }

  lemma {:induction false} FlushesKept(size: nat, from: int, packets: seq<Buffer>, i: nat)
    requires i <= |packets| <= INIT_COLLECT
    ensures Flush(Window(size, 2, from + i, Kept(from + i, packets[i..]), |packets| - i)) ==
      Outcome(Window(size, 2, from + |packets|, map[], 0), Deliveries(from, packets, i), 0)
    decreases |packets| - i
  {
    KeptRest(from, packets, i);
    hide Kept;
    if i < |packets| {
      FlushesKept(size, from, packets, i + 1);
      assert Deliveries(from, packets, i) == [Delivery(from + i, packets[i])] + Deliveries(from, packets, i + 1);
    }
  }

  lemma KeptRest(from: int, packets: seq<Buffer>, i: nat)
    requires i <= |packets|
    ensures var held := Kept(from + i, packets[i..]);
      if i == |packets| then held == map[]
      else from + i in held && held[from + i] == packets[i] && held - {from + i} == Kept(from + i + 1, packets[i + 1..])
  {
  }

  lemma OneItem(d: Delivery)
    ensures Items([d]) == [Numbered(d)]
  {
  }

  /** Packets in order go through a new window one by one, once enough were collected. */
  lemma {:induction false} InOrderFromNew(size: nat, near: int, from: int, packets: seq<Buffer>)
    requires ValidSize(size) && -32768 <= from - near < 32768
    ensures var w, ps := NewNear(size, near), Medias(from, packets);
      TameAll(w, ps) && HandledAll(w, ps) ==
        Effect(Standing(size, near, from, packets), if |packets| < INIT_COLLECT then [] else Numbers(from, packets), 0)
    decreases |packets|
  {
    hide Handled, Tame, Standing, Medias;
    if packets == [] {
      NothingCame(size, near, from);
    } else {
      var n := |packets| - 1;
      InOrderFromNew(size, near, from, packets[..n]);
      LastOfMedias(from, packets);
      StandingNext(size, near, from, packets[..n], packets[n]);
      assert packets[..n] + [packets[n]] == packets;
      assert Numbers(from, packets[..n]) + [Numbered(Delivery(from + n, packets[n]))] == Numbers(from, packets);
    }
  }

  lemma LastOfMedias(from: int, packets: seq<Buffer>)
    requires packets != []
    ensures var n := |packets| - 1; var ps := Medias(from, packets);
      |ps| == n + 1 && ps[..n] == Medias(from, packets[..n]) && ps[n] == Media((from + n) % 65536, packets[n])
  {
  }

  lemma NothingCame(size: nat, near: int, from: int)
    ensures Standing(size, near, from, []) == NewNear(size, near) && Medias(from, []) == []
  {
  }

  /** And through a window that delivers and holds nothing. */
  lemma {:induction false} InOrderFromThere(size: nat, from: int, packets: seq<Buffer>)
    requires ValidSize(size)
    ensures var w, ps := Window(size, 2, from, map[], 0), Medias(from, packets);
      TameAll(w, ps) &&
      HandledAll(w, ps) == Effect(Window(size, 2, from + |packets|, map[], 0), Numbers(from, packets), 0)
    decreases |packets|
  {
    hide Handled, Tame;
    if packets != [] {
      var n := |packets| - 1;
      InOrderFromThere(size, from, packets[..n]);
      assert Medias(from, packets)[..n] == Medias(from, packets[..n]);
      OneDelivered(size, from + n, packets[n]);
      assert Numbers(from, packets[..n]) + [Numbered(Delivery(from + n, packets[n]))] == Numbers(from, packets);
    }
  }

  lemma OneDelivered(size: nat, n: int, b: Buffer)
    requires ValidSize(size)
    ensures var w, p := Window(size, 2, n, map[], 0), Media(n % 65536, b);
      Tame(w, p) && Handled(w, p) == Effect(w.(base := n + 1), [Numbered(Delivery(n, b))], 0)
  {
    hide Insert;
    InsertNext(Window(size, 2, n, map[], 0), b);
    OneItem(Delivery(n, b));
  }

  lemma MediasAreMedia(from: int, packets: seq<Buffer>)
    ensures NoParity(Medias(from, packets)) && NoBare(Medias(from, packets))
  {
  }

  // ----- coming late -----

  /** A new source, and a new subscriber that works; `near` says about where the stream stands. */
  ghost function NewGroup(): Group { Group(New(32), [], 0, true, true, 0) }

  ghost function NewMember(near: int): Member {
    Member(Place(NewNear(32, near), Line([], [], 0, 0, true)), false, [], false, false)
  }

  /** A new subscriber that comes to a source that stands at some number, with nothing held: it joins the shared output
    * at its eighth packet, and what it is handed is every packet since it came, each once and in order. */
  lemma JoinsInStep(g: Group, from: int, near: int, packets: seq<Buffer>, fecInitialized: bool, cs: nat -> Chance)
    requires g.shared && ValidSize(g.w.size) && g.w == Window(g.w.size, 2, from, map[], 0)
    requires |packets| >= INIT_COLLECT && -32768 <= from - near < 32768
    ensures var mb, who, ps := NewMember(near), Who(Active, fecInitialized, false, false), Medias(from, packets);
      Fits(mb, g) &&
      var end, after := MemberRun(mb, who, g, ps, cs), GroupRun(g, ps);
      end.batched && end.at.line.clean && end.at.line.since <= |after.log| &&
      Story(end.at.line, after.log) == Numbers(from, packets)
  {
    hide *;
    var mb, who, ps := NewMember(near), Who(Active, fecInitialized, false, false), Medias(from, packets);
    MediasAreMedia(from, packets);
    NewListens(near, who, g);
    RunAlone(mb, who, g, ps, cs);
    var end := MemberRun(mb, who, g, ps, cs);
    EighthInStep(g, from, near, packets, who);
    JoinsAtEighth(g, from, near, packets, who, end);
    StoryInStep(g, from, near, packets, who, end);
  }

  lemma NewListens(near: int, who: Who, g: Group)
    requires ValidSize(g.w.size) && who.fcc == Active && !who.closing
    ensures Fits(NewMember(near), g) && Listens(NewMember(near), who) && ValidSize(NewMember(near).at.w.size)
  {
  }

  /** What the windows are after some packets in step. */
  lemma InStep(g: Group, from: int, near: int, packets: seq<Buffer>, who: Who, k: nat)
    requires g.shared && ValidSize(g.w.size) && g.w == Window(g.w.size, 2, from, map[], 0) && who.fcc == Active
    requires 0 < k <= |packets| && -32768 <= from - near < 32768
    ensures var mb, ps := NewMember(near), Medias(from, packets);
      k <= |ps| && ps[k - 1].Media? && ValidSize(mb.at.w.size) &&
      var at, group := FollowAll(mb.at, Own(mb, who, ps[..k])), GroupRun(g, ps[..k]);
      at.w == Standing(32, near, from, packets[..k]) && at.line.clean && at.line.lost == 0 && at.line.since == 0 &&
      at.line.trace == (if k < INIT_COLLECT then [] else Numbers(from, packets[..k])) &&
      group.w == Window(g.w.size, 2, from + k, map[], 0) && group.log == g.log + Numbers(from, packets[..k]) &&
      group.lost == g.lost &&
      group.shared && group.packetType == 1
  {
    var mb, ps := NewMember(near), Medias(from, packets);
    var front := Medias(from, packets[..k]);
    assert ps[..k] == front;
    assert Own(mb, who, front) == front;
    MediasAreMedia(from, packets);
    MediasAreMedia(from, packets[..k]);
    assert ps[k - 1].Media?;
    hide FollowAll, GroupRun, HandledAll, TameAll, Medias, Standing, NoParity, NoBare;
    InOrderFromNew(32, near, from, packets[..k]);
    InOrderFromThere(g.w.size, from, packets[..k]);
    FollowAllIs(mb.at, front);
    GroupRunIs(g, front);
    LastKind(g, ps, k);
  }

  lemma EighthInStep(g: Group, from: int, near: int, packets: seq<Buffer>, who: Who)
    requires g.shared && ValidSize(g.w.size) && g.w == Window(g.w.size, 2, from, map[], 0) && who.fcc == Active &&
      !who.snapshot
    requires |packets| >= INIT_COLLECT && -32768 <= from - near < 32768
    ensures MayAt(NewMember(near), who, g, Medias(from, packets), INIT_COLLECT)
    ensures forall k: nat :: k < INIT_COLLECT ==> !MayAt(NewMember(near), who, g, Medias(from, packets), k)
  {
    hide FollowAll, GroupRun, Own, Medias;
    InStep(g, from, near, packets, who, INIT_COLLECT);
    forall k: nat | k < INIT_COLLECT ensures !MayAt(NewMember(near), who, g, Medias(from, packets), k) {
      if k > 0 {
        InStep(g, from, near, packets, who, k);
      }
    }
  }

  lemma JoinsAtEighth(g: Group, from: int, near: int, packets: seq<Buffer>, who: Who, end: Member)
    requires ValidSize(g.w.size) && |packets| >= INIT_COLLECT
    requires RanAlone(NewMember(near), who, g, Medias(from, packets), end)
    requires MayAt(NewMember(near), who, g, Medias(from, packets), INIT_COLLECT)
    requires forall k: nat :: k < INIT_COLLECT ==> !MayAt(NewMember(near), who, g, Medias(from, packets), k)
    ensures end.batched && end.at == Entered(NewMember(near), who, g, Medias(from, packets), INIT_COLLECT)
  {
    hide MayAt, Entered, FollowAll, Own;
    var mb, ps := NewMember(near), Medias(from, packets);
    if end.batched {
      var k: nat :| JoinedAt(mb, who, g, ps, k, end);
      assert k == INIT_COLLECT;
    }
  }

  lemma StoryInStep(g: Group, from: int, near: int, packets: seq<Buffer>, who: Who, end: Member)
    requires g.shared && ValidSize(g.w.size) && g.w == Window(g.w.size, 2, from, map[], 0) && who.fcc == Active
    requires |packets| >= INIT_COLLECT && -32768 <= from - near < 32768
    requires end.at == Entered(NewMember(near), who, g, Medias(from, packets), INIT_COLLECT)
    ensures var after := GroupRun(g, Medias(from, packets));
      end.at.line.clean && end.at.line.since <= |after.log| && Story(end.at.line, after.log) == Numbers(from, packets)
  {
    hide FollowAll, GroupRun, Own, Medias, Numbers;
    var n := |packets|;
    InStep(g, from, near, packets, who, INIT_COLLECT);
    InStep(g, from, near, packets, who, n);
    WholeRun(from, packets);
    TwoParts(g.log, from, packets);
  }

  lemma WholeRun(from: int, packets: seq<Buffer>)
    ensures Medias(from, packets)[..|packets|] == Medias(from, packets) && packets[..|packets|] == packets
  {
  }

  lemma TwoParts(log: seq<Item>, from: int, packets: seq<Buffer>)
    requires |packets| >= INIT_COLLECT
    ensures var first, all := Numbers(from, packets[..INIT_COLLECT]), Numbers(from, packets);
      |log + first| <= |log + all| && first + (log + all)[|log + first|..] == all
  {
    var first, all := Numbers(from, packets[..INIT_COLLECT]), Numbers(from, packets);
    assert all[..INIT_COLLECT] == first;
    assert (log + all)[|log + first|..] == all[INIT_COLLECT..];
  }

  /** So a subscriber that comes to a running source is served without a gap or a repetition, however often the numbers
    * have come round since the source started. */
  lemma ComesLate(early: seq<Buffer>, packets: seq<Buffer>, near: int, fecInitialized: bool, cs: nat -> Chance)
    requires |early| >= INIT_COLLECT && |packets| >= INIT_COLLECT && -32768 <= |early| - near < 32768
    ensures var g := GroupRun(NewGroup(), Medias(0, early));
      var mb, who, ps := NewMember(near), Who(Active, fecInitialized, false, false), Medias(|early|, packets);
      Fits(mb, g) &&
      var end, after := MemberRun(mb, who, g, ps, cs), GroupRun(g, ps);
      end.batched && end.at.line.clean && end.at.line.since <= |after.log| &&
      Story(end.at.line, after.log) == Numbers(|early|, packets)
  {
    hide *;
    assert ValidSize(NewGroup().w.size) by { NewIsValid(); }
    RunsInOrder(early);
    JoinsInStep(GroupRun(NewGroup(), Medias(0, early)), |early|, near, packets, fecInitialized, cs);
  }

  lemma NewIsValid()
    ensures ValidSize(NewGroup().w.size) && ValidSize(32)
  {
  }

  lemma RunsInOrder(early: seq<Buffer>)
    requires |early| >= INIT_COLLECT
    ensures var g := GroupRun(NewGroup(), Medias(0, early));
      g.shared && g.w == Window(32, 2, |early|, map[], 0) && g.log == Numbers(0, early)
  {
    hide HandledAll, GroupRun, TameAll, Medias, NoParity, NoBare;
    MediasAreMedia(0, early);
    InOrderFromNew(32, 0, 0, early);
    GroupRunIs(NewGroup(), Medias(0, early));
    assert [] + Numbers(0, early) == Numbers(0, early);
  }

  // ----- how a bare payload leads to a repetition -----

  /** An input that repeats numbers: a subscriber was handed 0 to 60 by itself when it comes to a source that has seen 0
    * to 54; a bare payload arrives and takes it to the shared output, and then 55 comes. */
  lemma BareReplays(packets: seq<Buffer>, bare: Payload, cs: nat -> Chance)
    requires |packets| == 61
    ensures var mb := NewMember(0).(at := FollowAll(NewMember(0).at, Medias(0, packets)));
      var g := GroupRun(NewGroup(), Medias(0, packets[..55]));
      var who, ps := Who(Active, false, false, false), [Plain(bare, true), Media(55, packets[55])];
      Fits(mb, g) && mb.at.line.clean &&
      var end, after := MemberRun(mb, who, g, ps, cs), GroupRun(g, ps);
      end.batched && !end.at.line.clean && !Rising(Story(end.at.line, after.log))
  {
    var mb := NewMember(0).(at := FollowAll(NewMember(0).at, Medias(0, packets)));
    var g := GroupRun(NewGroup(), Medias(0, packets[..55]));
    var who := Who(Active, false, false, false);
    hide FollowAll, GroupRun, HandledAll, TameAll, Medias, MemberRun, Rising;
    InOrderFromNew(32, 0, 0, packets);
    InOrderFromNew(32, 0, 0, packets[..55]);
    MediasAreMedia(0, packets[..55]);
    FollowAllIs(NewMember(0).at, Medias(0, packets));
    GroupRunIs(NewGroup(), Medias(0, packets[..55]));
    BareThenNumber(mb, who, g, bare, packets[55], 55, cs);
  }

  /** A bare payload takes a subscriber ahead of the shared window to it, and the next packet there repeats a number. */
  lemma BareThenNumber(mb: Member, who: Who, g: Group, bare: Payload, b: Buffer, n: nat, cs: nat -> Chance)
    requires n < 65536 && ValidSize(mb.at.w.size) && mb.at.w.phase == 2 && mb.at.w.base != n && g.shared &&
      g.w == Window(32, 2, n, map[], 0)
    requires !mb.batched && !mb.failed && !mb.fec && mb.waiting == [] && who == Who(Active, false, false, false)
    requires var t := mb.at.line.trace; t != [] && t[|t| - 1].Numbered? && t[|t| - 1].delivery.number >= n
    ensures var ps := [Plain(bare, true), Media(n, b)];
      var end, after := MemberRun(mb, who, g, ps, cs), GroupRun(g, ps);
      end.batched && !end.at.line.clean && !Rising(Story(end.at.line, after.log))
  {
    hide *;
    var p, q := Plain(bare, true), Media(n, b);
    FitsAlone(mb, g);
    TwoSteps(mb, who, g, p, q, cs);
    var next, after := BareJoins(mb, who, g, bare, cs(0));
    JoinedStays(next, who, after, q, cs(1));
    NextInLog(after, b, n);
    RepeatsNumber(next.at.line, after.log, mb.at.line.trace, bare, b, n);
  }

  lemma FitsAlone(mb: Member, g: Group)
    requires ValidSize(mb.at.w.size) && ValidSize(g.w.size) && !mb.batched
    ensures Fits(mb, g)
  {
  }

  lemma NextInLog(g: Group, b: Buffer, n: nat)
    requires n < 65536 && g.shared && g.w == Window(32, 2, n, map[], 0)
    ensures GroupNext(g, Media(n, b)).log == g.log + [Numbered(Delivery(n, b))]
  {
    hide Insert, Orderly;
    InsertNext(g.w, b);
    OneItem(Delivery(n, b));
  }

  lemma TwoSteps(mb: Member, who: Who, g: Group, p: Packet, q: Packet, cs: nat -> Chance)
    requires Fits(mb, g)
    ensures ValidSize(GroupNext(g, p).w.size) && GroupRun(g, [p, q]) == GroupNext(GroupNext(g, p), q)
    ensures var next := MemberNext(mb, who, g, p, cs(0));
      Fits(next, GroupNext(g, p)) &&
      MemberRun(mb, who, g, [p, q], cs) == MemberNext(next, who, GroupNext(g, p), q, cs(1))
  {
    hide MemberNext, GroupNext;
    assert [p, q][..1] == [p] && [p][..0] == [];
    MemberFits(mb, who, g, p, cs(0));
    assert GroupRun(g, []) == g && MemberRun(mb, who, g, [], cs) == mb;
    assert GroupRun(g, [p]) == GroupNext(g, p);
    assert MemberRun(mb, who, g, [p], cs) == MemberNext(mb, who, g, p, cs(0));
  }

  lemma BareJoins(mb: Member, who: Who, g: Group, bare: Payload, c: Chance) returns (next: Member, after: Group)
    requires Fits(mb, g) && g.shared && mb.at.w.phase == 2 && mb.at.w.base != g.w.base
    requires !mb.batched && !mb.failed && !mb.fec && mb.waiting == [] && who == Who(Active, false, false, false)
    ensures after == GroupNext(g, Plain(bare, true)) && next == MemberNext(mb, who, g, Plain(bare, true), c) &&
      Fits(next, after)
    ensures after == g.(log := g.log + [Bare(bare)], packetType := 0)
    ensures next.batched && next.at.w == mb.at.w && !next.at.line.clean
    ensures next.at.line.trace == mb.at.line.trace + [Bare(bare)] && next.at.line.since == |after.log|
  {
    hide Insert, Diff;
    var p := Plain(bare, true);
    assert [] + [p] == [p] && [p][..0] == [];
    after, next := GroupNext(g, p), MemberNext(mb, who, g, p, c);
    assert TakeInAll(mb, false, [p]) == TakeIn(mb, false, p);
  }

  lemma RepeatsNumber(line: Line, log: seq<Item>, t: seq<Item>, bare: Payload, b: Buffer, n: nat)
    requires line.trace == t + [Bare(bare)] && line.since == |log| && t != []
    requires t[|t| - 1].Numbered? && t[|t| - 1].delivery.number >= n
    ensures !Rising(Story(line, log + [Numbered(Delivery(n, b))]))
  {
    var story := Story(line, log + [Numbered(Delivery(n, b))]);
    assert story == t + [Bare(bare)] + [Numbered(Delivery(n, b))];
    assert story[|t| - 1] == t[|t| - 1] && story[|t| + 1] == Numbered(Delivery(n, b));
  }
}
