/** Fast channel change: unicast from a server first, then multicast. */
module Fcc {

  import opened ReorderModel
  import Handoff
  import opened Sequences

  const MAX_REDIRECTS: nat := 5
  const SIGNALING_TIMEOUT: int := 80
  const UNICAST_TIMEOUT: int := 1000
  const SYNC_WAIT_TIMEOUT: int := 15000

  datatype State = Init | Requested | UnicastPending | UnicastActive | McastRequested | McastActive

  datatype Kind = Telecom | Huawei

  /** Address and signal port of the server. */
  datatype Server = NoServer | Server(ip: int, port: int)

  /** A multicast packet: whether it can be parsed, and its sequence number. */
  datatype Packet = Packet(wellFormed: bool, seqn: Seq16, id: nat)

  /** What can happen to a session. The answers of the network are part of the event. */
  datatype Event =
    | Control(buf: seq<int>, peer: int, now: int, requested: bool)
    | Media(peer: int, now: int, phase: nat, base: Seq16)
    | Multicast(packet: Packet, sent: bool)
    | Tick(now: int)
    | Cleanup(sent: bool)

  /** Two bytes as a number. */
  function Be16(buf: seq<int>, at: nat): int
    requires at + 1 < |buf|
  {
    buf[at] * 256 + buf[at + 1]
  }

  function Be32(buf: seq<int>, at: nat): int
    requires at + 3 < |buf|
  {
    Be16(buf, at) * 65536 + Be16(buf, at + 2)
  }

  /** The server named by an answer; zero leaves the address or the port as it is. */
  function Target(server: Server, ip: int, port: int): Server
    requires server.Server?
  {
    Server(if ip != 0 then ip else server.ip, if port != 0 then port else server.port)
  }

  predicate TelecomSync(buf: seq<int>) { |buf| >= 12 && buf[0] % 32 == 4 }

  predicate TelecomAnswer(buf: seq<int>) { |buf| >= 36 && buf[0] % 32 == 3 && buf[1] == 205 }

  predicate HuaweiSync(buf: seq<int>) { |buf| >= 2 && buf[0] % 32 == 8 }

  predicate HuaweiAnswer(buf: seq<int>) { |buf| >= 16 && buf[0] % 32 == 6 && buf[1] == 205 }

  predicate Switched(s: State) {
    s == McastRequested || s == McastActive
  }

  /** A session as a value: its fields, and the counters and packets that are kept for the record. */
  datatype Fields = Fields(initialized: bool, state: State, kind: Kind, open: bool, server: Server, mediaPort: int,
                           verifyServer: bool, termSeqn: Seq16, termSent: bool, redirectCount: nat, unicastStart: int,
                           lastData: int, sessionId: int, pending: seq<Packet>, joins: nat, terminations: nat,
                           followed: nat, kept: seq<Packet>, forwarded: seq<Packet>)

  /** What every session keeps to: a join for each way into multicast, one termination, a bounded number of redirects,
    * and kept packets in order. */
  ghost predicate Good(f: Fields) {
    (Switched(f.state) ==> f.joins > 0) && (f.termSent || f.pending != [] ==> Switched(f.state)) &&
    (f.initialized ==> f.joins <= if !Switched(f.state) then 0 else if f.state == McastRequested then 1 else 2) &&
    (if f.initialized then f.terminations == if f.termSent then 1 else 0 else f.terminations <= 1) &&
    f.followed == (if f.redirectCount > MAX_REDIRECTS then MAX_REDIRECTS else f.redirectCount) &&
    (f.initialized && f.redirectCount > MAX_REDIRECTS ==>
      f.redirectCount == MAX_REDIRECTS + 1 && f.state == McastActive) &&
    (f.open || (f.initialized && f.verifyServer) ==> f.server.Server?) &&
    f.kept == f.forwarded + f.pending
  }

  // ----- what each event does -----

  datatype Reaction = Reaction(next: Fields, ret: int)

  function Joined(f: Fields, state: State): Fields {
    f.(state := state, joins := f.joins + 1)
  }

  function Synced(f: Fields): Fields {
    if Switched(f.state) then f else Joined(f, McastRequested)
  }

  /** A request goes out to the server. */
  function Asked(f: Fields, requested: bool, now: int): Reaction {
    if requested then Reaction(f.(lastData := now, state := State.Requested), 0) else Reaction(f, -1)
  }

  /** A redirect is followed, which 1 asks for, unless there were too many. */
  function Redirected(f: Fields): Reaction {
    var g := f.(redirectCount := f.redirectCount + 1);
    if g.redirectCount > MAX_REDIRECTS then Reaction(Joined(g, McastActive), 0)
    else Reaction(g.(followed := g.followed + 1, state := Init), 1)
  }

  function TelecomReaction(f: Fields, buf: seq<int>, now: int): Reaction
    requires f.server.Server?
  {
    if TelecomSync(buf) then Reaction(Synced(f), 0)
    else if !TelecomAnswer(buf) || f.state != State.Requested then Reaction(f, 0)
    else if buf[12] != 0 then Reaction(Joined(f, McastActive), 0)
    else TelecomAction(f, buf[13], Be16(buf, 14), Be16(buf, 16), Be32(buf, 20), now)
  }

  function TelecomAction(f: Fields, action: int, signalPort: int, newMediaPort: int, ip: int, now: int): Reaction
    requires f.server.Server?
  {
    var next := Target(f.server, ip, signalPort);
    if action == 3 && f.redirectCount > 0 && next == f.server then Reaction(f, 0)
    else
      var g := f.(server := next, mediaPort := if newMediaPort != 0 then newMediaPort else f.mediaPort,
                  verifyServer := f.verifyServer || ip != 0);
      Proceeded(g, action, now)
  }

  function Proceeded(f: Fields, action: int, now: int): Reaction {
    if action == 2 then Reaction(f.(unicastStart := now, state := UnicastPending), 0)
    else if action == 3 then Redirected(f)
    else Reaction(Joined(f, McastActive), 0)
  }

  function HuaweiReaction(f: Fields, buf: seq<int>, now: int): Reaction
    requires f.server.Server?
  {
    if HuaweiSync(buf) then Reaction(Synced(f), 0)
    else if !HuaweiAnswer(buf) || f.state != State.Requested then Reaction(f, 0)
    else if buf[12] == 1 && Be16(buf, 14) == 2 && |buf| >= 24 then
      var g := if |buf| >= 36 then Punched(f, buf) else f;
      Reaction(g.(unicastStart := now, state := UnicastPending), 0)
    else if buf[12] == 1 && Be16(buf, 14) == 3 && |buf| >= 36 then HuaweiRedirect(f, buf)
    else Reaction(Joined(f, McastActive), 0)
  }

  function HuaweiRedirect(f: Fields, buf: seq<int>): Reaction
    requires f.server.Server? && |buf| >= 36
  {
    var ip := Be32(buf, 32);
    var next, r := Target(f.server, ip, Be16(buf, 26)), Redirected(f);
    if f.redirectCount > 0 && next == f.server then Reaction(f, 0)
    else if r.ret == 0 then r
    else Reaction(r.next.(server := next, verifyServer := f.verifyServer || ip != 0), 1)
  }

  /** The outcomes of a Huawei server's answer. */
  lemma HuaweiOutcomes(f: Fields, buf: seq<int>, now: int)
    requires f.server.Server? && Good(f) && f.initialized
    ensures var r := HuaweiReaction(f, buf, now); var g := r.next;
      g.server.Server? && (r.ret == 0 || r.ret == 1) &&
      (r.ret == 1 ==>
        f.state == State.Requested && g.state == Init && g.redirectCount == f.redirectCount + 1 <= MAX_REDIRECTS) &&
      (r.ret == 0 ==> Follows(f.state, g.state) && (g.redirectCount != f.redirectCount ==> g.state == McastActive)) &&
      (HuaweiSync(buf) ==> g.state == if f.state == McastActive then McastActive else McastRequested) &&
      (!HuaweiSync(buf) && !(HuaweiAnswer(buf) && f.state == State.Requested) ==>
        g.state == f.state && g.server == f.server)
  {
    hide Be16, Be32;
  }

  lemma HuaweiAnswers(f: Fields, buf: seq<int>, now: int)
    requires f.server.Server? && HuaweiAnswer(buf) && f.state == State.Requested
    ensures var r := HuaweiReaction(f, buf, now); var g := r.next;
      if buf[12] != 1 then g.state == McastActive && g.server == f.server
      else if Be16(buf, 14) == 2 && |buf| >= 24 then
        g.state == UnicastPending && g.unicastStart == now && g.server.Server? && g.server.port == f.server.port
      else if Be16(buf, 14) != 3 || |buf| < 36 then g.state == McastActive && g.server == f.server
      else if f.redirectCount > 0 && Target(f.server, Be32(buf, 32), Be16(buf, 26)) == f.server then
        r.ret == 0 && g.state == State.Requested
      else if f.redirectCount < MAX_REDIRECTS then
        r.ret == 1 && g.server == Target(f.server, Be32(buf, 32), Be16(buf, 26))
      else g.state == McastActive && g.server == f.server
  {
    hide Be16, Be32;
  }

  /** An answer of the server, and the new request it may ask for. */
  function Answered(f: Fields, buf: seq<int>, now: int, requested: bool): Reaction
    requires f.server.Server?
  {
    var r := if f.kind == Huawei then HuaweiReaction(f, buf, now) else TelecomReaction(f, buf, now);
    if r.ret == 1 then Asked(r.next, requested, now) else r
  }

  /** The server names an address to punch a hole for. */
  function Punched(f: Fields, buf: seq<int>): Fields
    requires |buf| >= 36 && f.server.Server?
  {
    var on, ip, port := buf[24] / 32 == 1 && Be32(buf, 28) != 0, Be32(buf, 32), Be16(buf, 26);
    f.(sessionId := Be32(buf, 28), server := if on then Target(f.server, ip, 0) else f.server,
       mediaPort := if on && port != 0 then port else f.mediaPort, verifyServer := f.verifyServer || (on && ip != 0))
  }

  /** Unicast has reached the first multicast packet once the window delivers from the announced number on. */
  function Reached(f: Fields, phase: nat, base: Seq16): Fields {
    if f.state == McastActive then f
    else if f.termSent && phase == 2 && Diff(base, f.termSeqn) >= 0 then f.(state := McastActive)
    else if f.state == UnicastPending then f.(state := UnicastActive)
    else f
  }

  /** A multicast packet before the switch: the server is told to stop, and the packet waits. */
  function Waited(f: Fields, packet: Packet, sent: bool): Reaction {
    if !packet.wellFormed then Reaction(f, 0)
    else if !f.termSent && !(f.open && f.server.Server? && sent) then Reaction(f.(termSeqn := packet.seqn), -1)
    else
      var g := if f.termSent then f
        else f.(termSeqn := packet.seqn, termSent := true, terminations := f.terminations + 1);
      Reaction(g.(pending := g.pending + [packet], kept := g.kept + [packet]), 0)
  }

  function Passed(f: Fields, packet: Packet): Fields {
    f.(pending := [], kept := f.kept + [packet], forwarded := f.forwarded + f.pending + [packet])
  }

  function Ticked(f: Fields, now: int): Fields {
    if !f.open then f
    else if f.state == State.Requested || f.state == UnicastPending then
      if now - f.lastData >= SIGNALING_TIMEOUT then Joined(f, McastActive) else f
    else if f.state == UnicastActive || f.state == McastRequested then
      if now - f.lastData >= UNICAST_TIMEOUT then Joined(f, McastActive)
      else if f.state == UnicastActive && f.unicastStart > 0 && now - f.unicastStart >= SYNC_WAIT_TIMEOUT then Synced(f)
      else f
    else f
  }

  /** A server that was never told to stop is told at the end, and the session is forgotten. */
  function Ended(f: Fields, sent: bool): Fields {
    var told := f.terminations + if !f.termSent && f.open && f.server.Server? && sent then 1 else 0;
    Forgotten(f.(terminations := told))
  }

  function Forgotten(f: Fields): Fields {
    f.(pending := [], kept := f.forwarded, open := false, state := Init, server := NoServer, mediaPort := 0,
       termSeqn := 0, termSent := false, initialized := false)
  }

  lemma ForgottenGood(f: Fields)
    requires f.terminations <= 1 && f.kept == f.forwarded + f.pending
    requires f.followed == if f.redirectCount > MAX_REDIRECTS then MAX_REDIRECTS else f.redirectCount
    ensures Good(Forgotten(f))
  {
    assert f.forwarded == f.forwarded + [];
  }

  lemma PendingGood(f: Fields, now: int)
    requires Good(f) && f.initialized && f.state == State.Requested
    ensures Good(f.(unicastStart := now, state := UnicastPending))
  {
  }

  lemma PunchedGood(f: Fields, buf: seq<int>)
    requires Good(f) && f.server.Server? && |buf| >= 36
    ensures var g := Punched(f, buf); Good(g) && g.state == f.state && g.initialized == f.initialized
    ensures var g := Punched(f, buf);
      g.server.Server? && g.server.port == f.server.port && g.redirectCount == f.redirectCount
  {
  }

  lemma ServerGood(f: Fields, server: Server, mediaPort: int, verifyServer: bool, sessionId: int)
    requires Good(f) && server.Server?
    ensures Good(f.(server := server, mediaPort := mediaPort, verifyServer := verifyServer, sessionId := sessionId))
  {
  }

  /** What one event does to a session. A negative result closes the connection. */
  function React(f: Fields, e: Event): Reaction {
    if !f.initialized then Reaction(f, 0)
    else
      match e
      case Control(buf, peer, now, requested) =>
        if !f.open || !f.server.Server? || (f.verifyServer && peer != f.server.ip) then Reaction(f, 0)
        else Answered(f.(lastData := now), buf, now, requested)
      case Media(peer, now, phase, base) =>
        if !f.open || (f.verifyServer && f.server.Server? && peer != f.server.ip) then Reaction(f, 0)
        else Reaction(Reached(f.(lastData := now), phase, base), 0)
      case Multicast(packet, sent) =>
        if f.state == McastActive then Reaction(Passed(f, packet), 0)
        else if f.state == McastRequested then Waited(f, packet, sent)
        else Reaction(f, 0)
      case Tick(now) => Reaction(Ticked(f, now), 0)
      case Cleanup(sent) => Reaction(Ended(f, sent), 0)
  }

  ghost function ReactAll(f: Fields, events: seq<Event>): Fields
    decreases |events|
  {
    if events == [] then f else React(ReactAll(f, events[..|events| - 1]), events[|events| - 1]).next
  }

  // ----- what every run keeps -----

  /** One event keeps a session good. */
  lemma ReactGood(f: Fields, e: Event)
    requires Good(f)
    ensures Good(React(f, e).next)
  {
    if f.initialized && e.Control? && f.open && f.server.Server? {
      AnsweredGood(f.(lastData := e.now), e.buf, e.now, e.requested);
    } else if f.initialized && e.Multicast? {
      MulticastGood(f, e.packet, e.sent);
    } else if f.initialized && e.Cleanup? {
      ForgottenGood(f.(terminations := f.terminations +
        if !f.termSent && f.open && f.server.Server? && e.sent then 1 else 0));
    }
  }

  lemma MulticastGood(f: Fields, packet: Packet, sent: bool)
    requires Good(f) && f.initialized
    ensures f.state == McastActive ==> Good(Passed(f, packet))
    ensures f.state == McastRequested ==> Good(Waited(f, packet, sent).next)
  {
    assert f.forwarded + f.pending + [packet] == f.forwarded + (f.pending + [packet]);
    assert f.forwarded + f.pending + [packet] + [] == f.forwarded + f.pending + [packet];
  }

  lemma AnsweredGood(f: Fields, buf: seq<int>, now: int, requested: bool)
    requires Good(f) && f.initialized && f.server.Server?
    ensures Good(Answered(f, buf, now, requested).next)
  {
    if f.kind == Huawei {
      HuaweiGood(f, buf, now);
    } else {
      TelecomGood(f, buf, now);
    }
    hide HuaweiReaction, TelecomReaction;
    var r := if f.kind == Huawei then HuaweiReaction(f, buf, now) else TelecomReaction(f, buf, now);
    if r.ret == 1 {
      AskedGood(r.next, requested, now);
    }
  }

  /** No way into multicast was taken yet, and the session may still ask. */
  ghost predicate Early(f: Fields) {
    f.initialized && !Switched(f.state)
  }

  lemma AskedGood(f: Fields, requested: bool, now: int)
    requires Good(f) && Early(f)
    ensures Good(Asked(f, requested, now).next)
  {
  }

  lemma TelecomGood(f: Fields, buf: seq<int>, now: int)
    requires Good(f) && f.initialized && f.server.Server?
    ensures var r := TelecomReaction(f, buf, now); Good(r.next) && (r.ret == 1 ==> Early(r.next))
  {
    hide Be16, Be32;
  }

  lemma HuaweiGood(f: Fields, buf: seq<int>, now: int)
    requires Good(f) && f.initialized && f.server.Server?
    ensures var r := HuaweiReaction(f, buf, now); Good(r.next) && (r.ret == 1 ==> Early(r.next))
  {
    hide Be16, Be32;
  }

  /** What lasts over any run: nothing leads back from multicast, a session that is not ended stays, and no packet
    * handed to the client is taken back. */
  lemma {:induction false} Lasting(f: Fields, events: seq<Event>)
    requires Good(f)
    ensures var g := ReactAll(f, events);
      Good(g) && (g.initialized ==> f.initialized) && f.forwarded <= g.forwarded &&
      (g.initialized && f.state == McastActive ==> g.state == McastActive) &&
      (g.initialized && Switched(f.state) ==> Switched(g.state)) &&
      (f.initialized && (forall i :: 0 <= i < |events| ==> !events[i].Cleanup?) ==> g.initialized)
    decreases |events|
  {
    if events != [] {
      var n := |events| - 1;
      Lasting(f, events[..n]);
      hide Good;
      ReactGood(ReactAll(f, events[..n]), events[n]);
      Step(ReactAll(f, events[..n]), events[n]);
      hide React;
    }
  }

  // ----- when the connection is closed -----

  /** The connection is closed exactly when a packet should wait and the server cannot be told to stop, or when a
    * redirect is to be followed and the request cannot be sent. A packet before multicast was asked for is not looked
    * at. */
  lemma ClosesExactly(f: Fields, e: Event)
    requires Good(f)
    ensures var r := React(f, e);
      (r.ret == 0 || r.ret == -1) && (r.ret == -1 <==> f.initialized && CannotGoOn(f, e, r.next))
    ensures e.Multicast? && !Switched(f.state) ==> React(f, e).next == f
  {
    if f.initialized && e.Control? && f.open && f.server.Server? {
      AnswerRet(f.(lastData := e.now), e.buf, e.now, e.requested);
      hide Answered;
    }
  }

  ghost predicate CannotGoOn(f: Fields, e: Event, next: Fields) {
    match e
    case Multicast(packet, sent) => f.state == McastRequested && packet.wellFormed && !f.termSent && !(f.open && sent)
    case Control(buf, peer, now, requested) => !requested && next.followed > f.followed
    case _ => false
  }

  lemma AnswerRet(f: Fields, buf: seq<int>, now: int, requested: bool)
    requires f.server.Server?
    ensures var r := Answered(f, buf, now, requested);
      r.next.followed >= f.followed && (r.ret == if r.next.followed > f.followed && !requested then -1 else 0)
  {
    HuaweiFollows(f, buf, now);
    TelecomFollows(f, buf, now);
    hide HuaweiReaction, TelecomReaction;
  }

  /** One redirect more is followed exactly when a new request is asked for. */
  ghost predicate OneMore(f: Fields, r: Reaction) {
    r.ret == r.next.followed - f.followed && (r.ret == 0 || r.ret == 1) && r.next.lastData == f.lastData
  }

  lemma HuaweiFollows(f: Fields, buf: seq<int>, now: int)
    requires f.server.Server?
    ensures OneMore(f, HuaweiReaction(f, buf, now))
  {
    hide Be16, Be32;
  }

  lemma TelecomFollows(f: Fields, buf: seq<int>, now: int)
    requires f.server.Server?
    ensures OneMore(f, TelecomReaction(f, buf, now))
  {
    hide Be16, Be32;
  }

  // ----- timeouts -----

  /** How long a session waits for its server: for an answer, or between unicast packets. */
  ghost function Patience(s: State): Option<nat> {
    match s
    case Requested => Some(80)
    case UnicastPending => Some(80)
    case UnicastActive => Some(1000)
    case McastRequested => Some(1000)
    case _ => None
  }

  /** The server has been silent for too long. */
  ghost predicate TimedOut(f: Fields, now: int) {
    f.initialized && f.open && Patience(f.state).Some? && now - f.lastData >= Patience(f.state).value
  }

  /** Unicast has gone on for 15 seconds, and the server has not said that multicast can be joined. */
  ghost predicate SyncOverdue(f: Fields, now: int) {
    f.initialized && f.open && f.state == UnicastActive && f.unicastStart > 0 && now - f.unicastStart >= 15000
  }

  /** A tick falls back to multicast exactly when the server has been silent for too long, asks for multicast exactly
    * when only the sync is overdue, and changes nothing otherwise. */
  lemma TickExactly(f: Fields, now: int)
    ensures var g := React(f, Tick(now)).next;
      if TimedOut(f, now) then g == f.(state := McastActive, joins := f.joins + 1)
      else if SyncOverdue(f, now) then g == f.(state := McastRequested, joins := f.joins + 1)
      else g == f
  {
  }

  /** The packet comes from the server. */
  ghost predicate Heard(f: Fields, e: Event) {
    f.initialized && f.open && f.server.Server? && (e.Control? || e.Media?) &&
    (f.verifyServer ==> e.peer == f.server.ip)
  }

  /** When the server was last heard of. */
  ghost function LastHeard(f: Fields, events: seq<Event>): int {
    if events == [] then f.lastData
    else
      var n := |events| - 1;
      if Heard(ReactAll(f, events[..n]), events[n]) then events[n].now else LastHeard(f, events[..n])
  }

  lemma {:induction false} LastDataIs(f: Fields, events: seq<Event>)
    requires Good(f)
    ensures ReactAll(f, events).lastData == LastHeard(f, events) && Good(ReactAll(f, events))
    decreases |events|
  {
    hide React, Good, Heard;
    if events != [] {
      var n := |events| - 1;
      LastDataIs(f, events[..n]);
      ReactGood(ReactAll(f, events[..n]), events[n]);
      DataStep(ReactAll(f, events[..n]), events[n]);
    }
  }

  lemma DataStep(f: Fields, e: Event)
    requires Good(f)
    ensures React(f, e).next.lastData == if Heard(f, e) then e.now else f.lastData
  {
    if e.Control? && f.server.Server? {
      AnswerData(f.(lastData := e.now), e.buf, e.now, e.requested);
      hide Answered;
    }
  }

  lemma AnswerData(f: Fields, buf: seq<int>, now: int, requested: bool)
    requires f.server.Server? && f.lastData == now
    ensures Answered(f, buf, now, requested).next.lastData == now
  {
    HuaweiFollows(f, buf, now);
    TelecomFollows(f, buf, now);
    hide HuaweiReaction, TelecomReaction;
  }

  /** At every tick the server was heard of less than the timeout of the state ago. */
  ghost predicate InTime(f: Fields, events: seq<Event>) {
    forall k :: 0 <= k < |events| && events[k].Tick? ==> TickInTime(f, events[..k], events[k].now)
  }

  ghost predicate TickInTime(f: Fields, before: seq<Event>, now: int) {
    var patience := Patience(ReactAll(f, before).state);
    patience.Some? ==> now - LastHeard(f, before) < patience.value
  }

  /** As long as the server is heard of in time, no tick falls back to multicast: it leaves the session as it is, or
    * asks for multicast because a sync is overdue. */
  lemma NoFallBack(f: Fields, events: seq<Event>, k: nat)
    requires Good(f) && InTime(f, events) && k < |events| && events[k].Tick?
    ensures var g, now := ReactAll(f, events[..k]), events[k].now;
      ReactAll(f, events[..k + 1]) == if SyncOverdue(g, now) then g.(state := McastRequested, joins := g.joins + 1)
      else g
  {
    hide React, Good;
    LastDataIs(f, events[..k]);
    TickExactly(ReactAll(f, events[..k]), events[k].now);
    assert TickInTime(f, events[..k], events[k].now);
    assert events[..k + 1][..k] == events[..k];
  }

  /** The multicast packets among the events. */
  ghost function Arrived(events: seq<Event>): seq<Packet> {
    if events == [] then []
    else
      var n := |events| - 1;
      Arrived(events[..n]) + if events[n].Multicast? then [events[n].packet] else []
  }

  /** Multicast packets are well formed, the termination can be sent, and the session is not ended. */
  ghost predicate Smooth(e: Event) {
    !e.Cleanup? && (e.Multicast? ==> e.packet.wellFormed && e.sent)
  }

  /** Once multicast was asked for, no packet is lost on the way: whatever happens in between, each one is handed on or
    * waits, in the order of arrival. */
  lemma {:induction false} NothingDropped(f: Fields, events: seq<Event>)
    requires Good(f) && f.initialized && Switched(f.state) && f.open &&
      forall i :: 0 <= i < |events| ==> Smooth(events[i])
    ensures var g := ReactAll(f, events);
      Good(g) && g.initialized && Switched(g.state) && g.open &&
      g.forwarded + g.pending == f.forwarded + f.pending + Arrived(events)
    decreases |events|
  {
    hide React, Good, Smooth;
    if events == [] {
      assert f.forwarded + f.pending + [] == f.forwarded + f.pending;
    } else {
      var n := |events| - 1;
      NothingDropped(f, events[..n]);
      var g := ReactAll(f, events[..n]);
      ReactGood(g, events[n]);
      OneArrived(g, events[n]);
      Assoc(f.forwarded + f.pending, Arrived(events[..n]), if events[n].Multicast? then [events[n].packet] else []);
    }
  }

  lemma Assoc(a: seq<Packet>, b: seq<Packet>, c: seq<Packet>)
    ensures a + b + c == a + (b + c)
  {
  }

  lemma OneArrived(f: Fields, e: Event)
    requires Good(f) && f.initialized && Switched(f.state) && f.open && Smooth(e)
    ensures var g := React(f, e).next;
      g.initialized && Switched(g.state) && g.open &&
      g.forwarded + g.pending == f.forwarded + f.pending + if e.Multicast? then [e.packet] else []
  {
    hide Be16, Be32, Diff;
    assert f.forwarded + f.pending + [] == f.forwarded + f.pending;
    if e.Multicast? {
      assert f.forwarded + f.pending + [e.packet] == f.forwarded + (f.pending + [e.packet]);
      assert f.forwarded + f.pending + [e.packet] + [] == f.forwarded + f.pending + [e.packet];
    }
  }

  // ----- no gap at the switch -----

  /** Packets wait only once the server was told to stop, and the first of them is the one it was told about. */
  ghost predicate Heads(f: Fields) {
    f.initialized ==>
      (!f.termSent ==> f.pending == []) &&
      (f.termSent && f.state == McastRequested ==> f.pending != [] && f.pending[0].seqn == f.termSeqn)
  }

  lemma HeadsStep(f: Fields, e: Event)
    requires Good(f) && Heads(f)
    ensures Heads(React(f, e).next)
  {
    if f.initialized && e.Control? && f.open && f.server.Server? {
      AnswerLeaves(f.(lastData := e.now), e.buf, e.now, e.requested);
      hide Answered;
    } else {
      hide Answered, Diff;
    }
  }

  /** An answer does not touch the packets that wait. */
  ghost predicate Leaves(f: Fields, g: Fields) {
    g.pending == f.pending && g.termSent == f.termSent && g.termSeqn == f.termSeqn && g.initialized == f.initialized &&
    (Switched(f.state) && g.state == McastRequested ==> f.state == McastRequested)
  }

  lemma AnswerLeaves(f: Fields, buf: seq<int>, now: int, requested: bool)
    requires f.server.Server?
    ensures Leaves(f, Answered(f, buf, now, requested).next)
  {
    HuaweiLeaves(f, buf, now);
    TelecomLeaves(f, buf, now);
    hide HuaweiReaction, TelecomReaction;
  }

  lemma HuaweiLeaves(f: Fields, buf: seq<int>, now: int)
    requires f.server.Server?
    ensures Leaves(f, HuaweiReaction(f, buf, now).next)
  {
    hide Be16, Be32;
  }

  lemma TelecomLeaves(f: Fields, buf: seq<int>, now: int)
    requires f.server.Server?
    ensures Leaves(f, TelecomReaction(f, buf, now).next)
  {
    hide Be16, Be32;
  }

  lemma {:induction false} RunHeads(f: Fields, events: seq<Event>)
    requires Good(f) && Heads(f)
    ensures Good(ReactAll(f, events)) && Heads(ReactAll(f, events))
    decreases |events|
  {
    hide React, Good, Heads;
    if events != [] {
      var n := |events| - 1;
      RunHeads(f, events[..n]);
      ReactGood(ReactAll(f, events[..n]), events[n]);
      HeadsStep(ReactAll(f, events[..n]), events[n]);
    }
  }

  /** Packets numbered one after the other. */
  ghost predicate Consecutive(ps: seq<Packet>) {
    forall i :: 0 <= i < |ps| ==> ps[i].seqn == (ps[0].seqn + i) % 65536
  }

  /** Packets as they come to the reorder window. */
  ghost function Arrivals(ps: seq<Packet>, data: Packet -> Buffer): seq<Arrival> {
    seq(|ps|, i requires 0 <= i < |ps| => Arrival(ps[i].seqn, data(ps[i])))
  }

  /** The number of the first packet that waits, seen from the window. */
  ghost function Announced(f: Fields, w: Window): int {
    w.base - Diff(w.base, f.termSeqn)
  }

  /** A unicast packet that completes the switch leaves no gap: the window has handed over or given up every number
    * before the one the server was told about; from then on every number is handed over, each once, when the packets
    * that waited and those that come after them are numbered one after the other. */
  lemma SwitchWithoutGap(f: Fields, e: Event, events: seq<Event>, w: Window, data: Packet -> Buffer)
    requires Good(f) && Heads(f) && f.initialized && f.open && f.state != McastActive &&
      React(f, e).next.state == McastActive
    requires e.Media? && e.phase == w.phase && e.base == w.base % 65536 && Sound(w)
    requires (forall i :: 0 <= i < |events| ==> Smooth(events[i])) && Consecutive(f.pending + Arrived(events))
    requires Diff(w.base, f.termSeqn) + w.size < 32768 && Handoff.Surplus(w) + w.size < 65535
    ensures var g, due := ReactAll(React(f, e).next, events), f.pending + Arrived(events);
      g.state == McastActive && g.forwarded + g.pending == f.forwarded + due && f.pending != [] &&
      due[0].seqn == Announced(f, w) % 65536 &&
      Announced(f, w) <= w.base &&
      var r := Run(w, Arrivals(due, data));
      r.lost == 0 && r.w.base >= Announced(f, w) + |due| && r.w.base - w.base == |r.delivered| &&
      forall i :: 0 <= i < |r.delivered| ==> r.delivered[i].number == w.base + i
  {
    hide Run, Handoff.Surplus, Smooth, Arrived, ReactAll, Sound;
    var due := f.pending + Arrived(events);
    SwitchedAt(f, e, w);
    ReactGood(f, e);
    NothingDropped(React(f, e).next, events);
    Lasting(React(f, e).next, events);
    var buffers := seq(|due|, i requires 0 <= i < |due| => data(due[i]));
    AsStretch(due, data, Announced(f, w));
    Handoff.HandsOverAll(w, Announced(f, w), buffers);
  }

  lemma SwitchedAt(f: Fields, e: Event, w: Window)
    requires Good(f) && Heads(f) && f.initialized && f.state != McastActive && React(f, e).next.state == McastActive
    requires e.Media? && e.phase == w.phase && e.base == w.base % 65536
    ensures w.phase == 2 && f.pending != [] && f.pending[0].seqn == f.termSeqn && Announced(f, w) % 65536 == f.termSeqn
    ensures Announced(f, w) <= w.base
    ensures var g := React(f, e).next;
      g.open == f.open && g.initialized && g.pending == f.pending && g.forwarded == f.forwarded
  {
  }

  lemma AsStretch(ps: seq<Packet>, data: Packet -> Buffer, from: int)
    requires ps != [] && Consecutive(ps) && from % 65536 == ps[0].seqn
    ensures Arrivals(ps, data) == Handoff.Stretch(from, seq(|ps|, i requires 0 <= i < |ps| => data(ps[i])))
  {
    forall i | 0 <= i < |ps| ensures ps[i].seqn == (from + i) % 65536 {
    }
  }

  ghost predicate Keeps(f: Fields, g: Fields) {
    (g.initialized ==> f.initialized) && f.forwarded <= g.forwarded &&
    (g.initialized && f.state == McastActive ==> g.state == McastActive) &&
    (g.initialized && Switched(f.state) ==> Switched(g.state))
  }

  lemma Step(f: Fields, e: Event)
    ensures var g := React(f, e).next; Keeps(f, g) && (f.initialized && !e.Cleanup? ==> g.initialized)
  {
    if e.Control? && f.server.Server? {
      AnswerKeeps(f.(lastData := e.now), e.buf, e.now, e.requested);
      hide Answered;
    } else {
      hide Answered, Diff;
    }
  }

  lemma AnswerKeeps(f: Fields, buf: seq<int>, now: int, requested: bool)
    requires f.server.Server?
    ensures var g := Answered(f, buf, now, requested).next; Keeps(f, g) && g.initialized == f.initialized
  {
    HuaweiKeeps(f, buf, now);
    TelecomKeeps(f, buf, now);
    hide HuaweiReaction, TelecomReaction;
  }

  lemma HuaweiKeeps(f: Fields, buf: seq<int>, now: int)
    requires f.server.Server?
    ensures var r := HuaweiReaction(f, buf, now);
      Keeps(f, r.next) && r.next.initialized == f.initialized && (r.ret == 1 ==> f.state == State.Requested)
  {
    hide Be16, Be32;
  }

  lemma TelecomKeeps(f: Fields, buf: seq<int>, now: int)
    requires f.server.Server?
    ensures var r := TelecomReaction(f, buf, now);
      Keeps(f, r.next) && r.next.initialized == f.initialized && (r.ret == 1 ==> f.state == State.Requested)
  {
    hide Be16, Be32;
  }

  lemma Bounds(f: Fields)
    requires Good(f)
    ensures (Switched(f.state) ==> f.joins > 0) && f.followed <= MAX_REDIRECTS && f.terminations <= 1
  {
  }

  lemma DataGood(f: Fields, now: int)
    requires Good(f)
    ensures Good(f.(lastData := now))
  {
  }

  class Session {
    var initialized: bool
    var state: State
    const kind: Kind
    var open: bool
    var server: Server
    var mediaPort: int
    var verifyServer: bool
    var termSeqn: Seq16
    var termSent: bool
    var redirectCount: nat
    var unicastStart: int
    var lastData: int
    var sessionId: int
    var pending: seq<Packet>

    /** How often a multicast join was attempted, a termination was sent, and a redirect was followed. */
    ghost var joins: nat
    ghost var terminations: nat
    ghost var followed: nat

    /** The multicast packets that were kept, and those handed on to the client. */
    ghost var kept: seq<Packet>
    ghost var forwarded: seq<Packet>

    constructor (kind: Kind)
      ensures Valid() && initialized && state == Init && this.kind == kind && joins == terminations == followed == 0
      ensures View() == Fields(true, Init, kind, false, NoServer, 0, false, 0, false, 0, 0, 0, 0, [], 0, 0, 0, [], [])
    {
      this.kind := kind;
      initialized, state, open, server := true, Init, false, NoServer;
      mediaPort, verifyServer, termSeqn, termSent, redirectCount := 0, false, 0, false, 0;
      unicastStart, lastData, sessionId, pending := 0, 0, 0, [];
      joins, terminations, followed, kept, forwarded := 0, 0, 0, [], [];
    }

    /** The session as a value. */
    ghost function View(): Fields
      reads this
    {
      Fields(initialized, state, kind, open, server, mediaPort, verifyServer, termSeqn, termSent, redirectCount,
             unicastStart, lastData, sessionId, pending, joins, terminations, followed, kept, forwarded)
    }

    ghost predicate Valid()
      reads this
    {
      Good(View())
    }

    /** Ask for the multicast stream. */
    method Join()
      modifies this`joins
      ensures joins == old(joins) + 1
    {
      joins := joins + 1;
    }

    /** Give up on unicast. */
    method FallBack()
      requires Valid() && initialized && state != McastActive
      modifies this`state, this`joins
      ensures Valid() && state == McastActive
      ensures View() == Joined(old(View()), McastActive)
    {
      state := McastActive;
      Join();
    }

    /** Open the socket if need be and send the request to the server. */
    method InitializeAndRequest(address: Server, canOpen: bool, requested: bool, now: int) returns (ret: int)
      requires Valid() && initialized && state == Init && address.Server?
      modifies this`open, this`server, this`lastData, this`state
      ensures Valid() && ret == (if (old(open) || canOpen) && requested then 0 else -1)
      ensures state == if ret == 0 then Requested else Init
      ensures lastData == if ret == 0 then now else old(lastData)
      ensures old(open) ==> Reaction(View(), ret) == Asked(old(View()), requested, now)
      ensures !old(open) && !canOpen ==> View() == old(View())
      ensures !old(open) && canOpen ==>
        Reaction(View(), ret) == Asked(old(View()).(open := true, server := address), requested, now)
    {
      if !open {
        if !canOpen {
          return -1;
        }
        open := true;
        server := address;
      }
      if !requested {
        return -1;
      }
      lastData := now;
      state := Requested;
      return 0;
    }

    /** The server says, or a timeout decides, that the multicast stream is to be joined. */
    method HandleSync()
      requires Valid() && initialized
      modifies this`state, this`joins
      ensures Valid() && state == (if old(state) == McastActive then McastActive else McastRequested)
      ensures View() == Synced(old(View()))
    {
      if state == McastRequested || state == McastActive {
        return;
      }
      state := McastRequested;
      Join();
    }

    /** One more redirect: followed up to the maximum. */
    method Redirect() returns (ret: int)
      requires Valid() && initialized && state == Requested
      modifies this`redirectCount, this`state, this`joins, this`followed
      ensures Valid() && redirectCount == old(redirectCount) + 1
      ensures ret == if old(redirectCount) < MAX_REDIRECTS then 1 else 0
      ensures state == if ret == 1 then Init else McastActive
      ensures Reaction(View(), ret) == Redirected(old(View()))
    {
      redirectCount := redirectCount + 1;
      if redirectCount > MAX_REDIRECTS {
        state := McastActive;
        Join();
        return 0;
      }
      followed := followed + 1;
      state := Init;
      return 1;
    }

    /** A response of a Telecom server; 1 asks for a new request to the server it redirects to. */
    method HandleTelecom(buf: seq<int>, now: int) returns (ret: int)
      requires Valid() && initialized && server.Server?
      modifies this`state, this`joins, this`server, this`mediaPort, this`verifyServer, this`unicastStart,
        this`redirectCount, this`followed
      ensures Valid() && server.Server? && (ret == 0 || ret == 1)
      ensures ret == 1 ==>
        old(state) == Requested && state == Init && redirectCount == old(redirectCount) + 1 <= MAX_REDIRECTS
      ensures ret == 0 ==> Follows(old(state), state) && (redirectCount != old(redirectCount) ==> state == McastActive)
      ensures TelecomSync(buf) ==> state == (if old(state) == McastActive then McastActive else McastRequested)
      ensures !TelecomSync(buf) && !(TelecomAnswer(buf) && old(state) == Requested) ==>
        state == old(state) && server == old(server)
      ensures TelecomAnswer(buf) && old(state) == Requested ==>
        var next := Target(old(server), Be32(buf, 20), Be16(buf, 14));
        if buf[12] != 0 then state == McastActive && server == old(server)
        else if buf[13] == 2 then state == UnicastPending && unicastStart == now && server == next
        else if buf[13] != 3 then state == McastActive && server == next
        else if old(redirectCount) > 0 && next == old(server) then ret == 0 && state == Requested
        else if old(redirectCount) < MAX_REDIRECTS then ret == 1 && server == next
        else state == McastActive
      ensures Reaction(View(), ret) == TelecomReaction(old(View()), buf, now)
    {
      hide Be16, Be32, Asked;
      if |buf| < 12 {
        return 0;
      }
      var fmt := buf[0] % 32;
      if fmt == 4 {
        HandleSync();
        return 0;
      }
      if fmt != 3 || |buf| < 36 || state != Requested || buf[1] != 205 {
        return 0;
      }
      if buf[12] != 0 {
        FallBack();
        return 0;
      }
      ret := ActTelecom(buf[13], Be16(buf, 14), Be16(buf, 16), Be32(buf, 20), now);
    }

    /** What an accepting Telecom server asks for: multicast now, unicast first, or another server. */
    method ActTelecom(action: int, signalPort: int, newMediaPort: int, ip: int, now: int) returns (ret: int)
      requires Valid() && initialized && server.Server? && state == Requested
      modifies this`state, this`joins, this`server, this`mediaPort, this`verifyServer, this`unicastStart,
        this`redirectCount, this`followed
      ensures Valid()
      ensures Reaction(View(), ret) == TelecomAction(old(View()), action, signalPort, newMediaPort, ip, now)
    {
      hide Good, Proceeded;
      var redirectIp := if ip != 0 then ip else server.ip;
      var redirectPort := if signalPort != 0 then signalPort else server.port;
      if action == 3 && redirectCount > 0 && redirectIp == server.ip && redirectPort == server.port {
        return 0;
      }
      UpdateEndpoints(Server(redirectIp, redirectPort), newMediaPort, ip != 0);
      ret := Proceed(action, now);
    }

    /** Unicast first, another server, or multicast now. */
    method Proceed(action: int, now: int) returns (ret: int)
      requires Valid() && initialized && state == Requested
      modifies this`state, this`joins, this`unicastStart, this`redirectCount, this`followed
      ensures Valid() && Reaction(View(), ret) == Proceeded(old(View()), action, now)
    {
      hide Good;
      if action == 2 {
        PendingGood(View(), now);
        unicastStart := now;
        state := UnicastPending;
        return 0;
      }
      if action == 3 {
        ret := Redirect();
        return;
      }
      FallBack();
      return 0;
    }

    method UpdateEndpoints(next: Server, newMediaPort: int, verify: bool)
      requires Valid() && next.Server?
      modifies this`server, this`mediaPort, this`verifyServer
      ensures Valid() && server == next && mediaPort == (if newMediaPort != 0 then newMediaPort else old(mediaPort))
      ensures verifyServer == (old(verifyServer) || verify)
      ensures View() == old(View()).(server := server, mediaPort := mediaPort, verifyServer := verifyServer)
    {
      hide Good;
      ServerGood(View(), next, if newMediaPort != 0 then newMediaPort else mediaPort, verifyServer || verify,
        sessionId);
      server := next;
      if newMediaPort != 0 {
        mediaPort := newMediaPort;
      }
      if verify {
        verifyServer := true;
      }
    }

    /** A response of a Huawei server. */
    method HandleHuawei(buf: seq<int>, now: int) returns (ret: int)
      requires Valid() && initialized && server.Server?
      modifies this`state, this`joins, this`server, this`mediaPort, this`verifyServer, this`unicastStart,
        this`redirectCount, this`followed
      modifies this`sessionId
      ensures Valid() && server.Server? && (ret == 0 || ret == 1)
      ensures ret == 1 ==>
        old(state) == Requested && state == Init && redirectCount == old(redirectCount) + 1 <= MAX_REDIRECTS
      ensures ret == 0 ==> Follows(old(state), state) && (redirectCount != old(redirectCount) ==> state == McastActive)
      ensures HuaweiSync(buf) ==> state == (if old(state) == McastActive then McastActive else McastRequested)
      ensures !HuaweiSync(buf) && !(HuaweiAnswer(buf) && old(state) == Requested) ==>
        state == old(state) && server == old(server)
      ensures HuaweiAnswer(buf) && old(state) == Requested ==>
        if buf[12] != 1 then state == McastActive && server == old(server)
        else if Be16(buf, 14) == 2 && |buf| >= 24 then
          state == UnicastPending && unicastStart == now && server.port == old(server.port)
        else if Be16(buf, 14) != 3 || |buf| < 36 then state == McastActive && server == old(server)
        else if old(redirectCount) > 0 && Target(old(server), Be32(buf, 32), Be16(buf, 26)) == old(server) then
          ret == 0 && state == Requested
        else if old(redirectCount) < MAX_REDIRECTS then
          ret == 1 && server == Target(old(server), Be32(buf, 32), Be16(buf, 26))
        else state == McastActive && server == old(server)
      ensures Reaction(View(), ret) == HuaweiReaction(old(View()), buf, now)
    {
      hide HuaweiReaction, Good;
      HuaweiOutcomes(View(), buf, now);
      if HuaweiAnswer(buf) && state == Requested {
        HuaweiAnswers(View(), buf, now);
      }
      ret := ReadHuawei(buf, now);
    }

    /** What the response asks for. */
    method ReadHuawei(buf: seq<int>, now: int) returns (ret: int)
      requires Valid() && initialized && server.Server?
      modifies this`state, this`joins, this`server, this`mediaPort, this`verifyServer, this`unicastStart,
        this`redirectCount, this`followed
      modifies this`sessionId
      ensures Valid() && Reaction(View(), ret) == HuaweiReaction(old(View()), buf, now)
    {
      hide Good, Punched;
      if |buf| < 2 {
        return 0;
      }
      var fmt := buf[0] % 32;
      if fmt == 8 {
        HandleSync();
        return 0;
      }
      if fmt != 6 || state != Requested || buf[1] != 205 || |buf| < 16 {
        return 0;
      }
      var kind := Be16(buf, 14);
      if buf[12] != 1 || kind == 1 || (kind == 2 && |buf| < 24) || (kind == 3 && |buf| < 36) || kind < 1 || kind > 3 {
        FallBack();
        return 0;
      }
      if kind == 2 {
        ExpectUnicast(buf, now);
        return 0;
      }
      ret := RedirectHuawei(buf);
    }

    /** The server will send unicast first. */
    method ExpectUnicast(buf: seq<int>, now: int)
      requires Valid() && initialized && server.Server? && state == Requested
      modifies this`state, this`server, this`mediaPort, this`verifyServer, this`unicastStart, this`sessionId
      ensures Valid()
      ensures View() == (if |buf| >= 36 then Punched(old(View()), buf) else old(View())).(unicastStart := now,
        state := UnicastPending)
    {
      hide Good, Punched;
      if |buf| >= 36 {
        PunchedGood(View(), buf);
        AcceptNat(buf);
      }
      PendingGood(View(), now);
      unicastStart := now;
      state := UnicastPending;
    }

    /** The server names another one. */
    method RedirectHuawei(buf: seq<int>) returns (ret: int)
      requires Valid() && initialized && server.Server? && state == Requested && |buf| >= 36
      modifies this`state, this`joins, this`server, this`verifyServer, this`redirectCount, this`followed
      ensures Valid() && Reaction(View(), ret) == HuaweiRedirect(old(View()), buf)
    {
      hide Good;
      var port, ip := Be16(buf, 26), Be32(buf, 32);
      var redirectIp := if ip != 0 then ip else server.ip;
      var redirectPort := if port != 0 then port else server.port;
      if redirectCount > 0 && redirectIp == server.ip && redirectPort == server.port {
        return 0;
      }
      ret := Redirect();
      if ret == 0 {
        return;
      }
      ServerGood(View(), Server(redirectIp, redirectPort), mediaPort, verifyServer || ip != 0, sessionId);
      verifyServer := verifyServer || ip != 0;
      server := Server(redirectIp, redirectPort);
    }

    /** An accepted request can name the server to punch a hole for. */
    method AcceptNat(buf: seq<int>)
      requires |buf| >= 36 && server.Server?
      modifies this`sessionId, this`server, this`mediaPort, this`verifyServer
      ensures sessionId == Be32(buf, 28)
      ensures var on := buf[24] / 32 == 1 && Be32(buf, 28) != 0;
        server == (if on then Target(old(server), Be32(buf, 32), 0) else old(server)) &&
        mediaPort == (if on && Be16(buf, 26) != 0 then Be16(buf, 26) else old(mediaPort)) &&
        verifyServer == (old(verifyServer) || (on && Be32(buf, 32) != 0))
      ensures View() == Punched(old(View()), buf)
    {
      var traversal := buf[24] / 32;
      var port, ip := Be16(buf, 26), Be32(buf, 32);
      sessionId := Be32(buf, 28);
      if traversal == 1 && sessionId != 0 {
        if ip != 0 {
          server := server.(ip := ip);
          verifyServer := true;
        }
        if port != 0 {
          mediaPort := port;
        }
      }
    }

    method HandleResponse(buf: seq<int>, now: int) returns (ret: int)
      requires Valid() && initialized && server.Server?
      modifies this
      ensures Valid() && initialized && open == old(open) && server.Server? && (ret == 0 || ret == 1)
      ensures ret == 1 ==> old(state) == Requested && state == Init
      ensures ret == 0 ==> Follows(old(state), state)
      ensures Reaction(View(), ret) ==
        if kind == Huawei then HuaweiReaction(old(View()), buf, now) else TelecomReaction(old(View()), buf, now)
    {
      if kind == Huawei {
        ret := HandleHuawei(buf, now);
      } else {
        ret := HandleTelecom(buf, now);
      }
    }

    /** A unicast packet; `phase` and `base` are those of the reorder window after it was processed. */
    method HandleUnicastMedia(phase: nat, base: Seq16)
      requires Valid() && initialized
      modifies this`state
      ensures Valid() && Follows(old(state), state)
      ensures old(state) != McastActive ==>
        (state == McastActive <==> termSent && phase == 2 && Diff(base, termSeqn) >= 0)
      ensures old(state) != McastActive && state != McastActive ==>
        state == if old(state) == UnicastPending then UnicastActive else old(state)
      ensures View() == Reached(old(View()), phase, base)
    {
      if state == McastActive {
        return;
      }
      if state == UnicastPending {
        state := UnicastActive;
      }
      if termSent && phase == 2 && state != McastActive {
        if Diff(base - 1, termSeqn - 1) >= 0 {
          state := McastActive;
        }
      }
    }

    /** Tell the server to stop, once; `sent` is whether the packet goes out. */
    method SendTermination(seqn: Seq16, sent: bool) returns (ret: int)
      requires Valid() && initialized && state == McastRequested
      modifies this`termSeqn, this`termSent, this`terminations
      ensures Valid() && terminations <= 1 && (old(termSent) ==> termSeqn == old(termSeqn))
      ensures ret == if old(termSent) || (open && sent) then 0 else -1
      ensures termSent == (ret == 0)
      ensures old(termSent) ==> View() == old(View())
      ensures !old(termSent) && open && sent ==>
        View() == old(View()).(termSeqn := seqn, termSent := true, terminations := old(terminations) + 1)
      ensures ret < 0 ==> View() == old(View()).(termSeqn := seqn)
    {
      if !termSent {
        termSeqn := seqn;
        if open && server.Server? && sent {
          terminations := terminations + 1;
          termSent := true;
        } else {
          return -1;
        }
      }
      return 0;
    }

    /** A multicast packet while unicast still runs is kept until the switch. */
    method HandleTransition(packet: Packet, sent: bool) returns (ret: int)
      requires Valid() && initialized && state == McastRequested
      modifies this`termSeqn, this`termSent, this`terminations, this`pending, this`kept
      ensures Valid() && forwarded == old(forwarded)
      ensures ret == (if packet.wellFormed && !old(termSent) && !(open && sent) then -1 else 0)
      ensures pending == if ret == 0 && packet.wellFormed then old(pending) + [packet] else old(pending)
      ensures kept == if ret == 0 && packet.wellFormed then old(kept) + [packet] else old(kept)
      ensures Reaction(View(), ret) == Waited(old(View()), packet, sent)
    {
      if !packet.wellFormed {
        return 0;
      }
      if !termSent {
        ret := SendTermination(packet.seqn, sent);
        if ret < 0 {
          return;
        }
      }
      pending := pending + [packet];
      kept := kept + [packet];
      ret := 0;
    }

    /** A multicast packet after the switch: what was kept goes first. */
    method HandleActive(packet: Packet)
      requires Valid() && initialized && state == McastActive
      modifies this`pending, this`kept, this`forwarded
      ensures Valid() && pending == [] && forwarded == old(forwarded) + old(pending) + [packet]
      ensures View() == Passed(old(View()), packet)
    {
      var i := 0;
      while i < |pending|
        invariant i <= |pending| && forwarded == old(forwarded) + pending[..i]
        invariant pending == old(pending) && kept == old(kept)
      {
        forwarded := forwarded + [pending[i]];
        assert pending[..i + 1] == pending[..i] + [pending[i]];
        i := i + 1;
      }
      assert pending[..i] == pending;
      pending := [];
      kept := kept + [packet];
      forwarded := forwarded + [packet];
    }

    /** Time passes. */
    method HandleTick(now: int)
      requires Valid()
      modifies this`state, this`joins
      ensures Valid() && Follows(old(state), state)
      ensures
        initialized && open && now - lastData >= SIGNALING_TIMEOUT &&
        (old(state) == Requested || old(state) == UnicastPending) ==>
        state == McastActive
      ensures
        initialized && open && now - lastData >= UNICAST_TIMEOUT &&
        (old(state) == UnicastActive || old(state) == McastRequested) ==>
        state == McastActive
      ensures !old(TimedOut(View(), now)) && !old(SyncOverdue(View(), now)) ==> View() == old(View())
      ensures !old(TimedOut(View(), now)) && old(SyncOverdue(View(), now)) ==>
        View() == old(View()).(state := McastRequested, joins := old(joins) + 1)
      ensures !initialized || !open ==> state == old(state)
      ensures View() == if old(initialized) then Ticked(old(View()), now) else old(View())
    {
      if !initialized || !open {
        return;
      }
      var elapsed := now - lastData;
      if state == Requested || state == UnicastPending {
        if elapsed >= SIGNALING_TIMEOUT {
          FallBack();
        }
      } else if state == UnicastActive || state == McastRequested {
        if elapsed >= UNICAST_TIMEOUT {
          FallBack();
        }
        if state == UnicastActive && unicastStart > 0 {
          if now - unicastStart >= SYNC_WAIT_TIMEOUT {
            HandleSync();
          }
        }
      }
    }

    /** End the session; a server that was never told to stop is told now. */
    method HandleCleanup(sent: bool)
      requires Valid()
      modifies this
      ensures Valid() && !initialized && terminations <= 1
      ensures old(initialized) && old(open) && sent ==> terminations == 1
      ensures old(initialized) ==> terminations == if old(termSent) || (old(open) && sent) then 1 else 0
      ensures old(initialized) ==>
        !open && state == Init && server == NoServer && mediaPort == 0 && pending == [] && !termSent && termSeqn == 0
      ensures old(initialized) ==> View() == Ended(old(View()), sent)
    {
      if !initialized {
        return;
      }
      if !termSent && open && server.Server? {
        if sent {
          terminations := terminations + 1;
          termSent := true;
        }
      }
      Reset();
    }

    /** Forget the session. */
    method Reset()
      requires terminations <= 1 && kept == forwarded + pending
      requires followed == if redirectCount > MAX_REDIRECTS then MAX_REDIRECTS else redirectCount
      modifies this`pending, this`kept, this`open, this`state, this`server, this`mediaPort, this`termSeqn,
        this`termSent, this`initialized
      ensures Valid() && !initialized && state == Init && !open && pending == [] && !termSent
      ensures View() == Forgotten(old(View()))
    {
      hide Good;
      ForgottenGood(View());
      Close();
      pending, kept, termSeqn, termSent, initialized := [], forwarded, 0, false, false;
    }

    method Close()
      modifies this`open, this`state, this`server, this`mediaPort
      ensures View() == old(View()).(open := false, state := Init, server := NoServer, mediaPort := 0)
    {
      open, state, server, mediaPort := false, Init, NoServer, 0;
    }

    /** One event. A negative result closes the connection. */
    method Handle(e: Event) returns (ret: int)
      requires Valid()
      modifies this
      ensures Valid() && Keeps(old(View()), View()) && (!e.Cleanup? ==> initialized == old(initialized))
      ensures Reaction(View(), ret) == React(old(View()), e) && (ret == 0 || ret == -1)
    {
      hide Good, TelecomReaction, HuaweiReaction, Reached, Waited, Passed, Ticked, Ended, Follows, Keeps;
      ReactGood(View(), e);
      Step(View(), e);
      ClosesExactly(View(), e);
      ret := 0;
      if !initialized {
        return;
      }
      OpenHasServer();
      match e {
        case Control(buf, peer, now, requested) =>
          if !open || (verifyServer && peer != server.ip) {
            return;
          }
          DataGood(View(), now);
          lastData := now;
          var res := HandleResponse(buf, now);
          if res == 1 {
            ret := InitializeAndRequest(server, true, requested, now);
          }
        case Media(peer, now, phase, base) =>
          if !open || (verifyServer && peer != server.ip) {
            return;
          }
          DataGood(View(), now);
          lastData := now;
          HandleUnicastMedia(phase, base);
        case Multicast(packet, sent) =>
          if state == McastActive {
            HandleActive(packet);
          } else if state == McastRequested {
            ret := HandleTransition(packet, sent);
          }
        case Tick(now) => HandleTick(now);
        case Cleanup(sent) => HandleCleanup(sent);
      }
    }

    lemma OpenHasServer()
      requires Valid()
      ensures open || (initialized && verifyServer) ==> server.Server?
    {
    }

    /** Any run of events: what holds of a session in the end, however it went. */
    method Run(events: seq<Event>)
      requires Valid() && initialized
      modifies this
      ensures Valid() && View() == ReactAll(old(View()), events)
      ensures initialized && old(state) == McastActive ==> state == McastActive
      ensures initialized && Switched(old(state)) ==> Switched(state)
      ensures Switched(state) ==> joins > 0
      ensures followed <= MAX_REDIRECTS && terminations <= 1
      ensures (forall i :: 0 <= i < |events| ==> !events[i].Cleanup?) ==> initialized
    {
      hide Good, React;
      assert events[..0] == [];
      for i := 0 to |events|
        invariant Valid() && View() == ReactAll(old(View()), events[..i])
      {
        assert events[..i + 1][..i] == events[..i];
        var _ := Handle(events[i]);
      }
      assert events[..|events|] == events;
      Lasting(old(View()), events);
      Bounds(View());
    }
  }

  /** The moves a session can make without a redirect. */
  predicate Follows(a: State, b: State) {
    a == b ||
    (a == Requested && (b == UnicastPending || b == McastRequested || b == McastActive)) ||
    (a == UnicastPending && (b == UnicastActive || b == McastRequested || b == McastActive)) ||
    (a == UnicastActive && (b == McastRequested || b == McastActive)) ||
    (a == McastRequested && b == McastActive) ||
    (a == Init && b == McastRequested)
  }
}
