/** The answers of the servers of fast channel change, as messages and as the bytes on the wire. */
module FccWire {

  import opened ReorderModel
  import opened Fcc

  /** A number in two bytes, the higher one first. */
  ghost function Two(n: int): seq<int>
    requires 0 <= n < 65536
  {
    [n / 256, n % 256]
  }

  ghost function Four(n: int): seq<int>
    requires 0 <= n < 0x1_0000_0000
  {
    Two(n / 65536) + Two(n % 65536)
  }

  lemma ReadTwo(buf: seq<int>, at: nat, n: int)
    requires 0 <= n < 65536 && at + 2 <= |buf| && buf[at..at + 2] == Two(n)
    ensures Be16(buf, at) == n
  {
    assert buf[at] == buf[at..at + 2][0] && buf[at + 1] == buf[at..at + 2][1];
  }

  lemma ReadFour(buf: seq<int>, at: nat, n: int)
    requires 0 <= n < 0x1_0000_0000 && at + 4 <= |buf| && buf[at..at + 4] == Four(n)
    ensures Be32(buf, at) == n
  {
    assert buf[at..at + 2] == buf[at..at + 4][..2] && buf[at + 2..at + 4] == buf[at..at + 4][2..];
    ReadTwo(buf, at, n / 65536);
    ReadTwo(buf, at + 2, n % 65536);
  }

  /** An answer of a Telecom server. What is not read of it is of any value. */
  datatype TelecomMsg = TelecomMsg(result: int, action: int, signalPort: int, mediaPort: int, ip: int)
  {
    ghost predicate Valid() {
      0 <= result < 256 && 0 <= action < 256 && 0 <= signalPort < 65536 && 0 <= mediaPort < 65536 &&
      0 <= ip < 0x1_0000_0000
    }

    /** The first byte holds three other bits and the format, 3; the next one the type of the packet, 205. */
    ghost function Bytes(bits: int, skipped: seq<int>, unused: seq<int>, rest: seq<int>): (buf: seq<int>)
      requires Valid()
    {
      [bits * 32 + 3, 205] + skipped + [result, action] + Two(signalPort) + Two(mediaPort) + unused + Four(ip) + rest
    }
  }

  /** An answer of a Huawei server; short ones end after the type, or before the address. */
  datatype HuaweiMsg = HuaweiMsg(result: int, kind: int, flags: int, port: int, session: int, ip: int)
  {
    ghost predicate Valid() {
      0 <= result < 256 && 0 <= kind < 65536 && 0 <= flags < 256 && 0 <= port < 65536 &&
      0 <= session < 0x1_0000_0000 && 0 <= ip < 0x1_0000_0000
    }

    ghost function Head(bits: int, skipped: seq<int>, pad: int): seq<int>
      requires Valid()
    {
      [bits * 32 + 6, 205] + skipped + [result, pad] + Two(kind)
    }

    ghost function Address(pad: int): seq<int>
      requires Valid()
    {
      [flags, pad] + Two(port) + Four(session) + Four(ip)
    }
  }

  /** What a server named without an address or a port stands for. */
  ghost function Named(server: Server, ip: int, port: int): Server
    requires server.Server?
  {
    match (ip == 0, port == 0)
    case (true, true) => server
    case (true, false) => Server(server.ip, port)
    case (false, true) => Server(ip, server.port)
    case (false, false) => Server(ip, port)
  }

  /** Multicast is joined at once. */
  ghost function Fallen(f: Fields): Fields {
    f.(state := McastActive, joins := f.joins + 1)
  }

  /** A redirect is followed with a request to the server named, five times at most. */
  ghost function Elsewhere(f: Fields, requested: bool): Reaction {
    var n := f.redirectCount;
    if n >= 5 then Reaction(Fallen(f).(redirectCount := n + 1), 0)
    else
      var g := f.(redirectCount := n + 1, followed := f.followed + 1, state := Init);
      if requested then Reaction(g.(state := State.Requested), 0) else Reaction(g, -1)
  }

  /** What an answer of a Telecom server means to a session that asked for one. */
  ghost function TelecomMeans(f: Fields, msg: TelecomMsg, now: int, requested: bool): Reaction
    requires f.server.Server?
  {
    var next := Named(f.server, msg.ip, msg.signalPort);
    var g := f.(server := next, mediaPort := if msg.mediaPort == 0 then f.mediaPort else msg.mediaPort,
                verifyServer := if msg.ip == 0 then f.verifyServer else true);
    if msg.result != 0 then Reaction(Fallen(f), 0)
    else if msg.action == 3 && f.redirectCount > 0 && next == f.server then Reaction(f, 0)
    else match msg.action
      case 2 => Reaction(g.(unicastStart := now, state := UnicastPending), 0)
      case 3 => Elsewhere(g, requested)
      case _ => Reaction(Fallen(g), 0)
  }

  /** And one of a Huawei server, of which so many bytes came. */
  ghost function HuaweiMeans(f: Fields, msg: HuaweiMsg, length: nat, now: int, requested: bool): Reaction
    requires f.server.Server?
  {
    if msg.result == 1 && msg.kind == 2 && length >= 24 then
      var g := if length < 36 then f else NatMeans(f, msg);
      Reaction(g.(unicastStart := now, state := UnicastPending), 0)
    else if msg.result == 1 && msg.kind == 3 && length >= 36 then
      var next := Named(f.server, msg.ip, msg.port);
      if f.redirectCount > 0 && next == f.server then Reaction(f, 0)
      else if f.redirectCount >= 5 then Reaction(Fallen(f).(redirectCount := f.redirectCount + 1), 0)
      else Elsewhere(f.(server := next, verifyServer := if msg.ip == 0 then f.verifyServer else true), requested)
    else Reaction(Fallen(f), 0)
  }

  /** The address to punch a hole for is given when the upper bits of the flags are 001 and the session has a number. */
  ghost function NatMeans(f: Fields, msg: HuaweiMsg): Fields
    requires f.server.Server?
  {
    var g := f.(sessionId := msg.session);
    if msg.flags < 32 || msg.flags >= 64 || msg.session == 0 then g
    else g.(server := Named(f.server, msg.ip, 0), mediaPort := if msg.port == 0 then f.mediaPort else msg.port,
            verifyServer := if msg.ip == 0 then f.verifyServer else true)
  }

  /** The session listens to this peer. */
  ghost predicate ListensTo(f: Fields, peer: int) {
    Good(f) && f.initialized && f.open && (f.verifyServer ==> f.server.Server? && peer == f.server.ip)
  }

  lemma TelecomFields(msg: TelecomMsg, bits: int, skipped: seq<int>, unused: seq<int>, rest: seq<int>)
    requires msg.Valid() && 0 <= bits < 8 && |skipped| == 10 && |unused| == 2 && |rest| >= 12
    ensures var buf := msg.Bytes(bits, skipped, unused, rest);
      |buf| >= 36 && buf[0] % 32 == 3 && buf[1] == 205 && buf[12] == msg.result && buf[13] == msg.action &&
      Be16(buf, 14) == msg.signalPort && Be16(buf, 16) == msg.mediaPort && Be32(buf, 20) == msg.ip
  {
    var buf := msg.Bytes(bits, skipped, unused, rest);
    assert buf[14..16] == Two(msg.signalPort) && buf[16..18] == Two(msg.mediaPort) && buf[20..24] == Four(msg.ip);
    ReadTwo(buf, 14, msg.signalPort);
    ReadTwo(buf, 16, msg.mediaPort);
    ReadFour(buf, 20, msg.ip);
  }

  /** An answer of a Telecom server is taken for what it means. */
  lemma TelecomRead(f: Fields, msg: TelecomMsg, bits: int, skipped: seq<int>, unused: seq<int>, rest: seq<int>,
                    peer: int, now: int, requested: bool)
    requires ListensTo(f, peer) && f.kind == Telecom && f.state == State.Requested
    requires msg.Valid() && 0 <= bits < 8 && |skipped| == 10 && |unused| == 2 && |rest| >= 12
    ensures f.server.Server?
    ensures React(f, Control(msg.Bytes(bits, skipped, unused, rest), peer, now, requested)) ==
      TelecomMeans(f.(lastData := now), msg, now, requested)
  {
    TelecomFields(msg, bits, skipped, unused, rest);
    hide TelecomMsg.Bytes, Be16, Be32;
  }

  /** A sync notification of a Telecom server joins multicast, once. */
  lemma TelecomSyncRead(f: Fields, bits: int, rest: seq<int>, peer: int, now: int, requested: bool)
    requires ListensTo(f, peer) && f.kind == Telecom && 0 <= bits < 8 && |rest| >= 11
    ensures React(f, Control([bits * 32 + 4] + rest, peer, now, requested)) == Reaction(SyncMeans(f.(lastData := now)),
      0)
  {
    hide Be16, Be32;
  }

  ghost function SyncMeans(f: Fields): Fields {
    match f.state
    case McastRequested => f
    case McastActive => f
    case _ => f.(state := McastRequested, joins := f.joins + 1)
  }

  /** Anything else from a Telecom server is heard, and changes nothing. */
  lemma TelecomElse(f: Fields, buf: seq<int>, peer: int, now: int, requested: bool)
    requires ListensTo(f, peer) && f.kind == Telecom
    requires |buf| < 12 || (buf[0] % 32 != 3 && buf[0] % 32 != 4) ||
      (buf[0] % 32 == 3 && (|buf| < 36 || buf[1] != 205 || f.state != State.Requested))
    ensures React(f, Control(buf, peer, now, requested)) == Reaction(f.(lastData := now), 0)
  {
    hide Be16, Be32;
  }

  lemma HuaweiFields(msg: HuaweiMsg, bits: int, skipped: seq<int>, pad: int, rest: seq<int>)
    requires msg.Valid() && 0 <= bits < 8 && |skipped| == 10
    ensures var buf := msg.Head(bits, skipped, pad) + rest;
      |buf| >= 16 && buf[0] % 32 == 6 && buf[1] == 205 && buf[12] == msg.result && Be16(buf, 14) == msg.kind
  {
    var buf := msg.Head(bits, skipped, pad) + rest;
    assert buf[14..16] == Two(msg.kind);
    ReadTwo(buf, 14, msg.kind);
  }

  lemma HuaweiAddress(msg: HuaweiMsg, head: seq<int>, pad: int, rest: seq<int>)
    requires msg.Valid() && |head| == 24
    ensures var buf := head + msg.Address(pad) + rest;
      |buf| >= 36 && buf[24] == msg.flags && Be16(buf, 26) == msg.port && Be32(buf, 28) == msg.session &&
      Be32(buf, 32) == msg.ip
  {
    var buf := head + msg.Address(pad) + rest;
    assert buf[26..28] == Two(msg.port) && buf[28..32] == Four(msg.session) && buf[32..36] == Four(msg.ip);
    ReadTwo(buf, 26, msg.port);
    ReadFour(buf, 28, msg.session);
    ReadFour(buf, 32, msg.ip);
  }

  /** An answer of a Huawei server that is too short for an address. */
  lemma HuaweiShortRead(f: Fields, msg: HuaweiMsg, bits: int, skipped: seq<int>, pad: int, rest: seq<int>,
                        peer: int, now: int, requested: bool)
    requires ListensTo(f, peer) && f.kind == Huawei && f.state == State.Requested
    requires msg.Valid() && 0 <= bits < 8 && |skipped| == 10 && |rest| < 20
    ensures f.server.Server?
    ensures React(f, Control(msg.Head(bits, skipped, pad) + rest, peer, now, requested)) ==
      HuaweiMeans(f.(lastData := now), msg, 16 + |rest|, now, requested)
  {
    HuaweiFields(msg, bits, skipped, pad, rest);
    assert |msg.Head(bits, skipped, pad)| == 16;
    hide HuaweiMsg.Head, Be16, Be32;
  }

  /** And a whole one. */
  lemma HuaweiRead(f: Fields, msg: HuaweiMsg, bits: int, skipped: seq<int>, pad: int, unicast: seq<int>, pad': int,
                   rest: seq<int>, peer: int, now: int, requested: bool)
    requires ListensTo(f, peer) && f.kind == Huawei && f.state == State.Requested
    requires msg.Valid() && 0 <= bits < 8 && |skipped| == 10 && |unicast| == 8
    ensures f.server.Server?
    ensures React(f,
      Control(msg.Head(bits, skipped, pad) + unicast + msg.Address(pad') + rest, peer, now, requested)) ==
      HuaweiMeans(f.(lastData := now), msg, 36 + |rest|, now, requested)
  {
    var head := msg.Head(bits, skipped, pad);
    var buf := head + unicast + msg.Address(pad') + rest;
    assert buf == head + (unicast + msg.Address(pad') + rest);
    HuaweiFields(msg, bits, skipped, pad, unicast + msg.Address(pad') + rest);
    HuaweiAddress(msg, head + unicast, pad', rest);
    assert |buf| == 36 + |rest|;
    hide HuaweiMsg.Head, HuaweiMsg.Address, Be16, Be32;
    HuaweiMeaning(f, msg, buf, peer, now, requested);
  }

  lemma HuaweiMeaning(f: Fields, msg: HuaweiMsg, buf: seq<int>, peer: int, now: int, requested: bool)
    requires ListensTo(f, peer) && f.kind == Huawei && f.state == State.Requested && msg.Valid() && |buf| >= 36
    requires buf[0] % 32 == 6 && buf[1] == 205 && buf[12] == msg.result && Be16(buf, 14) == msg.kind
    requires buf[24] == msg.flags && Be16(buf, 26) == msg.port && Be32(buf, 28) == msg.session &&
      Be32(buf, 32) == msg.ip
    ensures f.server.Server?
    ensures React(f, Control(buf, peer, now, requested)) ==
      HuaweiMeans(f.(lastData := now), msg, |buf|, now, requested)
  {
    hide Be16, Be32;
  }

  lemma HuaweiSyncRead(f: Fields, bits: int, rest: seq<int>, peer: int, now: int, requested: bool)
    requires ListensTo(f, peer) && f.kind == Huawei && 0 <= bits < 8 && |rest| >= 1
    ensures React(f, Control([bits * 32 + 8] + rest, peer, now, requested)) == Reaction(SyncMeans(f.(lastData := now)),
      0)
  {
    hide Be16, Be32;
  }

  /** Anything else from a Huawei server is heard, and changes nothing. */
  lemma HuaweiElse(f: Fields, buf: seq<int>, peer: int, now: int, requested: bool)
    requires ListensTo(f, peer) && f.kind == Huawei
    requires |buf| < 2 || (buf[0] % 32 != 6 && buf[0] % 32 != 8) ||
      (buf[0] % 32 == 6 && (|buf| < 16 || buf[1] != 205 || f.state != State.Requested))
    ensures React(f, Control(buf, peer, now, requested)) == Reaction(f.(lastData := now), 0)
  {
    hide Be16, Be32;
  }

  /** What comes from anybody else, or before there is a socket, is not looked at. */
  lemma NotListening(f: Fields, buf: seq<int>, peer: int, now: int, phase: nat, base: Seq16, requested: bool)
    requires Good(f) && (!f.initialized || !f.open || (f.verifyServer && peer != f.server.ip))
    ensures React(f, Control(buf, peer, now, requested)) == React(f, Media(peer, now, phase, base)) == Reaction(f, 0)
  {
  }
}
